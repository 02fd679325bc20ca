/**
 Runs of the DHCP client: any sequence of ticks, packets, starts and stops. How long a lease lasts, when an idle
 client is back in discovery, where the configured address comes from, and which replies are too old.
 */
module DhcpRuns {
  import opened Bytes
  import opened DhcpOptions
  import opened TransactionIds
  import opened DhcpClient

  datatype Event = TickEvent | PacketEvent(p: seq<Byte>, length: nat) | StartEvent | StopEvent

  function Act(c: Client, e: Event): Outcome
  {
    match e
    case TickEvent => TickStep(c)
    case PacketEvent(p, length) => PacketStep(c, p, length)
    case StartEvent => StartStep(c)
    case StopEvent => StopStep(c)
  }

  function Step(c: Client, e: Event): Client { Act(c, e).client }

  /** A client that is off is silent, an event is answered by at most one message, discovery is announced exactly
      when it begins, and entering REQUESTING or RENEWING is the sending of a request. */
  lemma MessagesFollowPhases(c: Client, e: Event)
    ensures var (c', sent) := (Act(c, e).client, Act(c, e).sent);
            && |sent| <= 1 && (!c.active ==> sent == [])
            && (sent == [DISCOVER] <==> c.active && c.phase == Init && c'.phase == Selecting)
            && (c'.phase in {Requesting, Renewing} && c.phase != c'.phase ==> sent == [REQUEST])
            && (sent == [RELEASE] <==> e.StopEvent? && c.active && c.phase == Bound && c.server != 0)
  {
    hide NextId, XidOf, YourAddress, Options;
  }

  function Run(c: Client, es: seq<Event>): Client
  {
    if es == [] then c else Step(Run(c, es[..|es| - 1]), es[|es| - 1])
  }

  // ---- time ----

  function Half(lease: nat): (h: nat)
    ensures 0 < h <= lease + 1
  {
    if lease < 4 then 1 else lease / 2
  }

  function Quarter(lease: nat): (q: nat)
    ensures 0 < q <= lease + 1
  {
    if lease < 8 then 1 else lease / 4
  }

  /** How long a lease lasts without an answer, in ticks. */
  function Term(lease: nat): nat { Half(lease) + 2 * Quarter(lease) }

  /** The client keeps to its lease exactly when that is at least three seconds. */
  lemma TermWithinLeaseIff(lease: nat)
    ensures Term(lease) <= lease <==> lease >= 3
  {
  }

  /** What holds in every state a run can reach. */
  ghost predicate Sane(c: Client)
  {
    && c.timer < WORD && c.seed < WORD && c.lease < WORD
    && c.phase != InitReboot && (!c.active ==> c.phase == Init)
    && (c.Waiting() ==> c.timer < 10)
    && (c.phase in {Renewing, Rebinding} ==> c.lease > 0 && c.timer < Quarter(c.lease))
    && (c.phase == Bound && c.lease > 0 ==> c.timer < Half(c.lease))
  }

  lemma PowerOnIsSane()
    ensures Sane(PowerOn()) && !PowerOn().Leased()
  {
  }

  /** Ticks spent on the current lease, by the client's own account. */
  function Elapsed(c: Client): nat
  {
    match c.phase
    case Renewing => Half(c.lease) + c.timer
    case Rebinding => Half(c.lease) + Quarter(c.lease) + c.timer
    case _ => c.timer
  }

  predicate TakesAck(c: Client, e: Event)
  {
    e.PacketEvent? && IsReply(c, e.p, e.length) && Options(e.p).kind == ACK && (c.phase == Requesting || c.Leased())
  }

  /** Ticks since the last acknowledgement that the client took. */
  function SinceAck(c: Client, es: seq<Event>): nat
  {
    if es == [] then 0
    else
      var before, e := es[..|es| - 1], es[|es| - 1];
      if TakesAck(Run(c, before), e) then 0
      else if e.TickEvent? then SinceAck(c, before) + 1
      else SinceAck(c, before)
  }

  /** A lease without an end. */
  predicate Endless(c: Client) { c.phase == Bound && c.lease == 0 }

  /** A tick in terms of the two spans of a lease, where the timer cannot wrap around. */
  function Ticked(c: Client): Client
  {
    var t := c.timer + 1;
    match c.phase
    case Selecting | Requesting => if t >= 10 then c.(phase := Init, timer := 0) else c.(timer := t)
    case Bound => if t >= Half(c.lease) then c.(phase := Renewing, timer := 0) else c.(timer := t)
    case Renewing => if t >= Quarter(c.lease) then c.(phase := Rebinding, timer := 0) else c.(timer := t)
    case Rebinding => if t >= Quarter(c.lease) then c.(phase := Init, timer := 0) else c.(timer := t)
    case _ => c
  }

  lemma TickIsTicked(c: Client)
    requires Sane(c) && c.active && c.phase != Init && !Endless(c)
    ensures TickStep(c).client == Ticked(c)
  {
    assert (c.timer + 1) % WORD == c.timer + 1;
  }

  lemma EndlessTick(c: Client)
    requires Sane(c) && c.active && Endless(c)
    ensures TickStep(c).client == c.(timer := (c.timer + 1) % WORD)
  {
  }

  lemma FirstTick(c: Client)
    requires Sane(c) && (!c.active || c.phase == Init)
    ensures Sane(TickStep(c).client) && !TickStep(c).client.Leased()
  {
    hide NextId;
    assert NextId(c.seed) < WORD;
  }

  /** A tick on the clock of a lease. */
  lemma TickElapses(c: Client)
    requires Sane(c)
    ensures var c' := TickStep(c).client;
            && Sane(c')
            && (c'.Leased() ==> c.Leased() && c'.lease == c.lease && c'.ip == c.ip && c'.xid == c.xid)
            && (c'.Leased() && c.lease > 0 ==> Elapsed(c') == Elapsed(c) + 1)
  {
    hide TickStep, Half, Quarter;
    if !c.active || c.phase == Init { FirstTick(c); }
    else if Endless(c) { EndlessTick(c); }
    else { TickIsTicked(c); }
  }

  lemma ReplyKeepsTime(c: Client, yours: nat, f: Fields)
    requires Sane(c) && c.active
    ensures var c' := ReplyStep(c, yours, f).client;
            && Sane(c')
            && (c'.Leased() ==>
                  if f.kind == ACK then Elapsed(c') == 0 && (c.phase == Requesting || c.Leased()) else c' == c)
            && (!c'.Leased() && f.kind == ACK ==> !c.Leased() && c.phase != Requesting)
  {
  }

  lemma OtherKeepsTime(c: Client, e: Event)
    requires Sane(c) && (e.StartEvent? || e.StopEvent?)
    ensures Sane(Step(c, e)) && (Step(c, e).Leased() ==> Step(c, e) == c)
  {
    hide NextId;
    assert NextId(c.seed) < WORD;
  }

  /** In every run the client's own clock agrees with the ticks since the last acknowledgement. */
  lemma {:induction false} ClockIsRight(c: Client, es: seq<Event>)
    requires Sane(c) && !c.Leased()
    ensures Sane(Run(c, es))
    ensures Run(c, es).Leased() && Run(c, es).lease > 0 ==> SinceAck(c, es) == Elapsed(Run(c, es))
  {
    hide Sane, Elapsed, TickStep, ReplyStep, StartStep, StopStep, Options, XidOf, YourAddress, Opcode, Client.Leased;
    if es != [] {
      var before, e := es[..|es| - 1], es[|es| - 1];
      ClockIsRight(c, before);
      var now := Run(c, before);
      match e
      case TickEvent => TickElapses(now);
      case PacketEvent(p, length) =>
        if IsReply(now, p, length) { ReplyKeepsTime(now, YourAddress(p), Options(p)); }
      case _ => OtherKeepsTime(now, e);
    }
  }

  lemma ElapsedBelowTerm(c: Client)
    requires Sane(c) && c.Leased() && c.lease > 0
    ensures Elapsed(c) < Term(c.lease)
  {
  }

  /** Ticks since the phase was entered that the client is in. */
  function TicksInPhase(c: Client, es: seq<Event>): nat
  {
    if es == [] then 0
    else
      var before := es[..|es| - 1];
      if Run(c, es).phase != Run(c, before).phase then 0
      else TicksInPhase(c, before) + if es[|es| - 1].TickEvent? then 1 else 0
  }

  /** While waiting, every tick moves the timer, and nothing else does. */
  lemma WaitingStep(c: Client, e: Event)
    requires Sane(c)
    ensures var c' := Step(c, e);
            c'.Waiting() ==>
              if c'.phase != c.phase then c'.timer == 0
              else c'.timer == c.timer + if e.TickEvent? then 1 else 0
  {
    hide NextId, XidOf, YourAddress, Options;
  }

  lemma {:induction false} WaitIsCounted(c: Client, es: seq<Event>)
    requires Sane(c) && c.phase == Init
    ensures Run(c, es).Waiting() ==> TicksInPhase(c, es) == Run(c, es).timer
  {
    hide Sane, Step;
    if es != [] {
      var before := es[..|es| - 1];
      WaitIsCounted(c, before);
      ClockIsRight(c, before);
      WaitingStep(Run(c, before), es[|es| - 1]);
    }
  }

  /** In every run, SELECTING and REQUESTING are left by the tenth tick at the latest, and a lease that is being renewed
      is a real one. */
  lemma PhasesInBounds(c: Client, es: seq<Event>)
    requires Sane(c) && c.phase == Init
    ensures Run(c, es).Waiting() ==> TicksInPhase(c, es) == Run(c, es).timer < 10
    ensures Run(c, es).phase in {Renewing, Rebinding} ==> Run(c, es).lease > 0
  {
    ClockIsRight(c, es);
    WaitIsCounted(c, es);
  }

  // ---- silence ----

  /** The client after `k` ticks without a packet. */
  function Ticks(c: Client, k: nat): Client
    decreases k
  {
    if k == 0 then c else Ticks(TickStep(c).client, k - 1)
  }

  /** Ticks until a silent client is back in discovery. */
  function Remaining(c: Client): int
  {
    match c.phase
    case Init => 0
    case Selecting | Requesting => 10 - c.timer
    case _ => Term(c.lease) - Elapsed(c)
  }

  lemma CountDown(c: Client)
    requires Sane(c) && c.active && c.phase != Init && !Endless(c)
    ensures var c' := TickStep(c).client;
            && Sane(c') && c'.active && !Endless(c') && Remaining(c) > 0 && Remaining(c') == Remaining(c) - 1
            && (c'.phase == Init <==> Remaining(c') == 0)
            && (c.Leased() && Remaining(c') > 0 ==> c'.Leased())
  {
    TickIsTicked(c);
    hide TickStep, Half, Quarter;
    assert Half(c.lease) > 0 && Quarter(c.lease) > 0;
  }

  /** A silent client is back in discovery after exactly the remaining ticks. */
  lemma {:induction false} SilenceEnds(c: Client, k: nat)
    requires Sane(c) && c.active && c.phase != Init && !Endless(c) && k <= Remaining(c)
    ensures Ticks(c, k).phase == Init <==> k == Remaining(c)
    ensures c.Leased() && k < Remaining(c) ==> Ticks(c, k).Leased()
    decreases k
  {
    CountDown(c);
    hide Sane, Remaining, TickStep, Endless, Client.Leased;
    if k > 0 {
      var c' := TickStep(c).client;
      if k == 1 {
        assert Ticks(c, 1) == Ticks(c', 0) == c';
      } else {
        SilenceEnds(c', k - 1);
      }
    }
  }

  lemma {:induction false} EndlessStays(c: Client, k: nat)
    requires Endless(c)
    ensures Endless(Ticks(c, k))
    decreases k
  {
    if k > 0 { EndlessStays(TickStep(c).client, k - 1); }
  }

  /** Without packets an active client returns to discovery, unless it holds a lease of zero seconds. */
  lemma IdleReturnsIff(c: Client)
    requires Sane(c) && c.active
    ensures (exists k: nat :: Ticks(c, k).phase == Init) <==> !Endless(c)
  {
    if Endless(c) {
      forall k: nat
        ensures Ticks(c, k).phase != Init
      {
        EndlessStays(c, k);
      }
    } else {
      if c.phase != Init { CountDown(c); }
      var k: nat := Remaining(c);
      if c.phase != Init { SilenceEnds(c, k); }
      assert Ticks(c, k).phase == Init;
    }
  }

  /** A lease just acknowledged and then left in silence lasts exactly its term, whatever the server meant by it:
      one of one or two seconds is held for three ticks. */
  lemma SilentLease(c: Client, k: nat)
    requires Sane(c) && c.active && c.phase == Bound && c.timer == 0 && c.lease > 0
    ensures k < Term(c.lease) ==> Ticks(c, k).Leased()
    ensures Ticks(c, Term(c.lease)).phase == Init
  {
    SilenceEnds(c, Term(c.lease));
    if k < Term(c.lease) { SilenceEnds(c, k); }
  }

  lemma {:induction false} TicksJoin(c: Client, k: nat, m: nat)
    ensures Ticks(c, k + m) == Ticks(Ticks(c, k), m)
    decreases k
  {
    if k > 0 { TicksJoin(TickStep(c).client, k - 1, m); }
  }

  lemma {:induction false} TicksStaySane(c: Client, k: nat)
    requires Sane(c)
    ensures Sane(Ticks(c, k)) && (!c.Leased() ==> !Ticks(c, k).Leased())
    decreases k
  {
    hide Sane, TickStep, Elapsed, Client.Leased;
    TickElapses(c);
    if k > 0 { TicksStaySane(TickStep(c).client, k - 1); }
  }

  /** Left in silence, the client still holds an acknowledged lease when it is over exactly when that lease was
      shorter than three seconds. */
  lemma HeldPastLeaseIff(c: Client)
    requires Sane(c) && c.active && c.phase == Bound && c.timer == 0 && c.lease > 0
    ensures Ticks(c, c.lease).Leased() <==> c.lease < 3
  {
    hide TickStep, Sane, Ticks;
    TermWithinLeaseIff(c.lease);
    SilentLease(c, c.lease);
    if c.lease >= 3 {
      TicksJoin(c, Term(c.lease), c.lease - Term(c.lease));
      TicksStaySane(c, Term(c.lease));
      TicksStaySane(Ticks(c, Term(c.lease)), c.lease - Term(c.lease));
    }
  }

  // ---- where the address comes from ----

  /** Event `i` is an offer that the client takes up: of that address, under that id. */
  predicate OfferAt(c: Client, es: seq<Event>, i: nat, xid: nat, address: nat)
  {
    && i < |es| && es[i].PacketEvent? && Run(c, es[..i]).phase == Selecting
    && IsReply(Run(c, es[..i]), es[i].p, es[i].length) && Options(es[i].p).kind == OFFER
    && XidOf(es[i].p) == xid && YourAddress(es[i].p) == address
  }

  /** Event `j` is the acknowledgement that the client was waiting for, under that id. */
  predicate AckAt(c: Client, es: seq<Event>, j: nat, xid: nat)
  {
    && j < |es| && es[j].PacketEvent? && Run(c, es[..j]).phase == Requesting
    && IsReply(Run(c, es[..j]), es[j].p, es[j].length) && Options(es[j].p).kind == ACK && XidOf(es[j].p) == xid
  }

  /** From behind event `i` on the client has been requesting that address under that id. */
  ghost predicate RequestedSince(c: Client, es: seq<Event>, i: nat, xid: nat, address: nat)
  {
    forall k :: i < k <= |es| ==>
      Run(c, es[..k]).phase == Requesting && Run(c, es[..k]).xid == xid && Run(c, es[..k]).offered == address
  }

  /** From behind event `j` on the client has held a lease of that address under that id. */
  ghost predicate HeldSince(c: Client, es: seq<Event>, j: nat, xid: nat, address: nat)
  {
    forall k :: j < k <= |es| ==>
        Run(c, es[..k]).Leased() && Run(c, es[..k]).xid == xid && Run(c, es[..k]).ip == address
  }

  /** Whatever concerns the first events only also holds of a longer run. */
  lemma Prefixes(es: seq<Event>, e: Event)
    ensures forall k :: 0 <= k <= |es| ==> (es + [e])[..k] == es[..k]
    ensures (es + [e])[..|es| + 1] == es + [e]
  {
  }

  /** What an offer said is what the client remembers. */
  predicate Noted(c: Client, f: Fields)
  {
    c.server == f.server && c.mask == f.mask && c.router == f.router && c.dns == f.dns
  }

  /** Mask and gateway are those that an offer named; what it did not name is as it was before. */
  predicate Configured(c: Client, before: Client, f: Fields)
  {
    && c.netmask == (if f.mask != 0 then f.mask else before.netmask)
    && c.gateway == (if f.router != 0 then f.router else before.gateway)
  }

  /** An acknowledgement that names a lease, 5 being the kind, taken while holding one. */
  predicate Renews(c: Client, e: Event)
  {
    e.PacketEvent? && IsReply(c, e.p, e.length) && c.Leased() && Options(e.p).kind == 5 && Options(e.p).lease != 0
  }

  /** What the server has granted, to a client that event `i` offered a lease and event `j` acknowledged it: the last
      lease that an acknowledgement behind `j` named, and without one that of the offer. */
  function GrantedLease(c: Client, es: seq<Event>, i: nat, j: nat): nat
    requires i < |es| && es[i].PacketEvent? && |es[i].p| >= MESSAGE
    decreases |es|
  {
    if |es| <= i + 1 || |es| <= j + 1 then Options(es[i].p).lease
    else
      var before, e := es[..|es| - 1], es[|es| - 1];
      if Renews(Run(c, before), e) then Options(e.p).lease else GrantedLease(c, before, i, j)
  }

  ghost predicate OnOffer(c: Client, es: seq<Event>, i: nat)
  {
    var now := Run(c, es);
    && OfferAt(c, es, i, now.xid, now.offered) && RequestedSince(c, es, i, now.xid, now.offered)
    && Noted(now, Options(es[i].p)) && now.lease == Options(es[i].p).lease
  }

  ghost predicate OnLease(c: Client, es: seq<Event>, i: nat, j: nat)
  {
    var now := Run(c, es);
    && i < j < |es| && OfferAt(c, es, i, now.xid, now.ip) && RequestedSince(c, es[..j], i, now.xid, now.ip)
    && AckAt(c, es, j, now.xid) && HeldSince(c, es, j, now.xid, now.ip)
    && Noted(now, Options(es[i].p)) && Configured(now, Run(c, es[..j]), Options(es[i].p))
    && now.lease == GrantedLease(c, es, i, j)
  }

  predicate SameNotes(c: Client, c': Client)
  {
    c'.server == c.server && c'.mask == c.mask && c'.router == c.router && c'.dns == c.dns
  }

  /** What one event does to a client that is requesting or holds a lease afterwards. */
  lemma StepGoesOn(c: Client, e: Event)
    ensures var c' := Step(c, e);
            && (c'.phase == Requesting ==>
                  if c.phase == Requesting
                  then c'.xid == c.xid && c'.offered == c.offered && SameNotes(c, c') && c'.lease == c.lease
                  else e.PacketEvent? && IsReply(c, e.p, e.length) && c.phase == Selecting && Options(e.p).kind == OFFER
                       && c'.xid == c.xid && c'.offered == YourAddress(e.p) && Noted(c', Options(e.p))
                       && c'.lease == Options(e.p).lease)
            && (c'.Leased() ==>
                  SameNotes(c, c') &&
                  if c.Leased()
                  then c'.xid == c.xid && c'.ip == c.ip && c'.netmask == c.netmask && c'.gateway == c.gateway
                       && c'.lease == (if Renews(c, e) then Options(e.p).lease else c.lease)
                  else e.PacketEvent? && IsReply(c, e.p, e.length) && c.phase == Requesting && Options(e.p).kind == ACK
                       && c'.xid == c.xid && c'.ip == c.offered && c'.lease == c.lease
                       && c'.netmask == (if c.mask != 0 then c.mask else c.netmask)
                       && c'.gateway == (if c.router != 0 then c.router else c.gateway))
  {
    hide NextId, XidOf, YourAddress, Options;
  }

  /** The same events as a part of a longer run. */
  lemma RunOn(c: Client, es: seq<Event>, e: Event)
    ensures Run(c, es + [e]) == Step(Run(c, es), e)
  {
    assert (es + [e])[..|es + [e]| - 1] == es;
  }

  lemma OfferStays(c: Client, es: seq<Event>, e: Event, i: nat, xid: nat, address: nat)
    requires OfferAt(c, es, i, xid, address)
    ensures OfferAt(c, es + [e], i, xid, address)
  {
    Prefixes(es, e);
    assert (es + [e])[i] == es[i];
    hide Run, IsReply, Options;
  }

  lemma AckStays(c: Client, es: seq<Event>, e: Event, j: nat, xid: nat)
    requires AckAt(c, es, j, xid)
    ensures AckAt(c, es + [e], j, xid)
  {
    Prefixes(es, e);
    assert (es + [e])[j] == es[j];
    hide Run, IsReply, Options;
  }

  lemma RequestedStays(c: Client, es: seq<Event>, e: Event, i: nat, xid: nat, address: nat)
    requires RequestedSince(c, es, i, xid, address)
    requires var c' := Run(c, es + [e]); c'.phase == Requesting && c'.xid == xid && c'.offered == address
    ensures RequestedSince(c, es + [e], i, xid, address)
  {
    hide Run;
    Prefixes(es, e);
  }

  lemma HeldStays(c: Client, es: seq<Event>, e: Event, j: nat, xid: nat, address: nat)
    requires HeldSince(c, es, j, xid, address)
    requires var c' := Run(c, es + [e]); c'.Leased() && c'.xid == xid && c'.ip == address
    ensures HeldSince(c, es + [e], j, xid, address)
  {
    hide Run, Client.Leased;
    Prefixes(es, e);
  }

  /** The last event took an offer up. */
  lemma NewOffer(c: Client, es: seq<Event>, e: Event)
    requires Run(c, es + [e]).phase == Requesting && Run(c, es).phase != Requesting
    ensures OnOffer(c, es + [e], |es|)
  {
    hide Options, YourAddress, XidOf, Step;
    RunOn(c, es, e);
    StepGoesOn(Run(c, es), e);
    hide Run;
    Prefixes(es, e);
  }

  lemma OfferGoesOn(c: Client, es: seq<Event>, e: Event, i: nat)
    requires Run(c, es + [e]).phase == Requesting && Run(c, es).phase == Requesting && OnOffer(c, es, i)
    ensures OnOffer(c, es + [e], i)
  {
    hide Options, YourAddress, XidOf, Step, OfferAt, RequestedSince;
    RunOn(c, es, e);
    StepGoesOn(Run(c, es), e);
    hide Run;
    OfferInside(c, es, i, Run(c, es).xid, Run(c, es).offered);
    assert (es + [e])[i] == es[i];
    OfferStays(c, es, e, i, Run(c, es).xid, Run(c, es).offered);
    RequestedStays(c, es, e, i, Run(c, es).xid, Run(c, es).offered);
  }

  /** The last event acknowledged a request. */
  lemma NewLease(c: Client, es: seq<Event>, e: Event, i: nat)
    requires Run(c, es + [e]).Leased() && !Run(c, es).Leased() && OnOffer(c, es, i)
    ensures OnLease(c, es + [e], i, |es|)
  {
    hide Options, YourAddress, XidOf, Step, OfferAt, RequestedSince;
    RunOn(c, es, e);
    StepGoesOn(Run(c, es), e);
    hide Run, Client.Leased;
    Prefixes(es, e);
    OfferStays(c, es, e, i, Run(c, es).xid, Run(c, es).offered);
    assert i < |es| by { OfferInside(c, es, i, Run(c, es).xid, Run(c, es).offered); }
    assert (es + [e])[i] == es[i];
  }

  lemma OfferInside(c: Client, es: seq<Event>, i: nat, xid: nat, address: nat)
    requires OfferAt(c, es, i, xid, address)
    ensures i < |es| && es[i].PacketEvent? && |es[i].p| >= MESSAGE
  {
  }

  lemma LeaseGoesOn(c: Client, es: seq<Event>, e: Event, i: nat, j: nat)
    requires Run(c, es + [e]).Leased() && Run(c, es).Leased() && OnLease(c, es, i, j)
    ensures OnLease(c, es + [e], i, j)
  {
    hide Options, YourAddress, XidOf, Step, OfferAt, AckAt, HeldSince, RequestedSince;
    RunOn(c, es, e);
    StepGoesOn(Run(c, es), e);
    hide Run, Client.Leased;
    Prefixes(es, e);
    OfferStays(c, es, e, i, Run(c, es).xid, Run(c, es).ip);
    AckStays(c, es, e, j, Run(c, es).xid);
    HeldStays(c, es, e, j, Run(c, es).xid, Run(c, es).ip);
    assert (es + [e])[i] == es[i] && (es + [e])[..|es|] == es;
  }

  /** Address provenance: whenever the client holds a lease, its address was offered to it under the current id,
      requested without a break until that offer was acknowledged under the same id, and held without a change
      ever since. Mask and gateway are those of the same offer where it names them; where it does not they are what
      they were before the acknowledgement. */
  lemma {:induction false} AddressProvenance(c: Client, es: seq<Event>) returns (i: nat, j: nat)
    requires c.phase == Init
    ensures Run(c, es).phase == Requesting ==> OnOffer(c, es, i)
    ensures Run(c, es).Leased() ==> OnLease(c, es, i, j)
    decreases |es|
  {
    hide OnOffer, OnLease, Step;
    i, j := 0, 0;
    if es != [] {
      var before, e := es[..|es| - 1], es[|es| - 1];
      assert before + [e] == es;
      i, j := AddressProvenance(c, before);
      RunOn(c, before, e);
      StepGoesOn(Run(c, before), e);
      hide Run;
      if Run(c, es).phase == Requesting {
        if Run(c, before).phase == Requesting { OfferGoesOn(c, before, e, i); }
        else { NewOffer(c, before, e); i := |before|; }
      } else if Run(c, es).Leased() {
        if Run(c, before).Leased() { LeaseGoesOn(c, before, e, i, j); }
        else { NewLease(c, before, e, i); j := |before|; }
      }
    }
  }

  /** Lease safety: whenever the client holds a lease of `L` seconds, as the server granted it, fewer than `Term(L)`
      ticks have passed since the last acknowledgement. With `TermWithinLeaseIff` that is within the lease when it is
      three or more. */
  lemma LeaseSafety(c: Client, es: seq<Event>) returns (i: nat, j: nat)
    requires Sane(c) && c.phase == Init
    ensures Run(c, es).Leased() ==> OnLease(c, es, i, j)
    ensures Run(c, es).Leased() && GrantedLease(c, es, i, j) > 0 ==> SinceAck(c, es) < Term(GrantedLease(c, es, i, j))
  {
    i, j := AddressProvenance(c, es);
    ClockIsRight(c, es);
    if Run(c, es).Leased() && Run(c, es).lease > 0 { ElapsedBelowTerm(Run(c, es)); }
  }

  // ---- late replies ----

  predicate DrawsId(c: Client, e: Event) {
    (e.StartEvent? && !c.active) || (e.TickEvent? && c.active && c.phase == Init)
  }

  /** How many ids a run has drawn. */
  function Draws(c: Client, es: seq<Event>): nat
  {
    if es == [] then 0
    else
      var before := es[..|es| - 1];
      Draws(c, before) + if DrawsId(Run(c, before), es[|es| - 1]) then 1 else 0
  }

  lemma StepDraws(c: Client, e: Event)
    ensures var c' := Step(c, e);
            if DrawsId(c, e) then c'.seed == NextId(c.seed) && c'.xid == c'.seed
            else c'.seed == c.seed && c'.xid == c.xid
  {
    hide NextId, XidOf, YourAddress, Options;
  }

  /** The current id is the one that many draws from the first seed give. */
  lemma {:induction false} IdIsDraw(c: Client, es: seq<Event>)
    requires c.seed < WORD
    ensures Run(c, es).seed == Draw(c.seed, Draws(c, es))
    ensures Draws(c, es) > 0 ==> Run(c, es).xid == Run(c, es).seed
    decreases |es|
  {
    hide NextId, Step, DrawsId;
    if es != [] {
      var before := es[..|es| - 1];
      IdIsDraw(c, before);
      StepDraws(Run(c, before), es[|es| - 1]);
    }
  }

  /** A reply to an earlier round, carrying the id of any of the last 2^32 - 1 draws before the current one, changes
      nothing and is answered by nothing. */
  lemma LateReplyIsIgnored(c: Client, es: seq<Event>, n: nat, p: seq<Byte>, length: nat)
    requires c.seed < WORD && n <= |es| && 0 < Draws(c, es[..n]) < Draws(c, es) < Draws(c, es[..n]) + WORD
    requires |p| >= MESSAGE && XidOf(p) == Run(c, es[..n]).xid
    ensures PacketStep(Run(c, es), p, length) == Outcome(Run(c, es), [])
  {
    hide NextId, Step, Draw, Run, Draws, Options, XidOf, ReplyStep;
    IdIsDraw(c, es[..n]);
    IdIsDraw(c, es);
    IdsStayFresh(c.seed, Draws(c, es[..n]), Draws(c, es));
  }
}
