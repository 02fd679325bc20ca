/**
 What the DHCP client sends and takes over, over whole runs: the exchange that gets it an address, the requests of a
 renewal and how often they are repeated, when it is switched on, and what its network configuration is. Message kinds
 stand here as their numbers: 1 DISCOVER, 2 OFFER, 3 REQUEST, 5 ACK, 6 NAK, 7 RELEASE.
 */
module DhcpTraffic {
  import opened Bytes
  import opened ByteOrder
  import opened DhcpOptions
  import opened TransactionIds
  import opened DhcpClient
  import opened DhcpRuns

  // ---- the requests of a renewal ----

  lemma RenewalStep(c: Client, e: Event)
    requires Sane(c)
    ensures var c' := Step(c, e);
            c'.phase in {Renewing, Rebinding} ==>
              if c'.phase != c.phase then c'.timer == 0
              else c'.timer == c.timer + if e.TickEvent? then 1 else 0
  {
    hide NextId, XidOf, YourAddress, Options;
  }

  lemma {:induction false} RenewalIsCounted(c: Client, es: seq<Event>)
    requires Sane(c) && c.phase == Init
    ensures Run(c, es).phase in {Renewing, Rebinding} ==> TicksInPhase(c, es) == Run(c, es).timer
  {
    hide Sane, Step;
    if es != [] {
      var before := es[..|es| - 1];
      RenewalIsCounted(c, before);
      ClockIsRight(c, before);
      RenewalStep(Run(c, before), es[|es| - 1]);
    }
  }

  lemma TickSends(c: Client)
    requires Sane(c) && c.active
    ensures var sent := TickStep(c).sent;
            match c.phase
            case Init => sent == [1]
            case Bound => sent == if TickStep(c).client.phase == Bound then [] else [3]
            case Renewing | Rebinding => sent == if (c.timer + 1) % 5 == 0 then [3] else []
            case _ => sent == []
  {
    hide NextId;
    assert c.phase in {Renewing, Rebinding} ==> (c.timer + 1) % WORD == c.timer + 1;
  }

  /** In every run, a tick while the lease is being renewed sends a request exactly when it is the fifth, the tenth, and
      so on since that phase was entered. Ticks that the client spends waiting for an answer, or bound, are silent. */
  lemma RequestEveryFifthTick(c: Client, es: seq<Event>)
    requires Sane(c) && c.phase == Init && Run(c, es).active
    ensures var now := Run(c, es); var sent := Act(now, TickEvent).sent;
            && (now.phase in {Renewing, Rebinding} ==> sent == if (TicksInPhase(c, es) + 1) % 5 == 0 then [3] else [])
            && (now.phase in {Selecting, Requesting} ==> sent == [])
            && (now.phase == Bound ==> sent == if Step(now, TickEvent).phase == Bound then [] else [3])
  {
    hide Run, TicksInPhase, TickStep, Sane;
    ClockIsRight(c, es);
    RenewalIsCounted(c, es);
    TickSends(Run(c, es));
  }

  /** How many messages a client sends in `k` silent ticks. */
  function SentIn(c: Client, k: nat): nat
    decreases k
  {
    if k == 0 then 0 else |TickStep(c).sent| + SentIn(TickStep(c).client, k - 1)
  }

  lemma {:induction false} SentInJoins(c: Client, k: nat, m: nat)
    ensures SentIn(c, k + m) == SentIn(c, k) + SentIn(Ticks(c, k), m)
    decreases k
  {
    hide TickStep;
    if k > 0 { SentInJoins(TickStep(c).client, k - 1, m); }
  }

  lemma {:induction false} SentWhileRenewing(c: Client, k: nat)
    requires Sane(c) && c.active && c.phase in {Renewing, Rebinding} && c.timer + k <= Quarter(c.lease)
    ensures SentIn(c, k) == (c.timer + k) / 5 - c.timer / 5
    decreases k
  {
    hide TickStep, Quarter;
    if k > 0 {
      TickSends(c);
      TickIsTicked(c);
      TicksOn(c);
      if k > 1 { SentWhileRenewing(TickStep(c).client, k - 1); }
    }
  }

  lemma TicksOn(c: Client)
    requires Sane(c) && c.active && c.phase in {Renewing, Rebinding}
    ensures Sane(Ticked(c)) && Ticked(c).active
  {
  }

  lemma {:induction false} SilentWhileBound(c: Client, k: nat)
    requires Sane(c) && c.active && c.phase == Bound && c.lease > 0 && c.timer + k < Half(c.lease)
    ensures SentIn(c, k) == 0 && Ticks(c, k) == c.(timer := c.timer + k)
    decreases k
  {
    hide TickStep, Half;
    if k > 0 {
      TickSends(c);
      TickIsTicked(c);
      SilentWhileBound(c.(timer := c.timer + 1), k - 1);
    }
  }

  /** When a client left in silence goes on: it renews after half the lease, asks everyone a quarter later, and gives up
      after another quarter. */
  lemma RenewalTimes(c: Client)
    requires Sane(c) && c.active && c.phase == Bound && c.timer == 0 && c.lease >= 8
    ensures var h, q := c.lease / 2, c.lease / 4;
            && Ticks(c, h - 1).phase == Bound
            && Ticks(c, h) == c.(phase := Renewing, timer := 0)
            && Ticks(c, h + q) == c.(phase := Rebinding, timer := 0)
            && Ticks(c, h + 2 * q) == c.(phase := Init, timer := 0)
  {
    hide TickStep, Half, Quarter, Sane, Ticks;
    var h, q := c.lease / 2, c.lease / 4;
    var r, b := c.(phase := Renewing, timer := 0), c.(phase := Rebinding, timer := 0);
    HalfPasses(c);
    QuarterPasses(r, q);
    QuarterPasses(b, q);
    TicksJoin(c, h, q);
    TicksJoin(c, h + q, q);
  }

  lemma HalfPasses(c: Client)
    requires Sane(c) && c.active && c.phase == Bound && c.timer == 0 && c.lease >= 8
    ensures var h, q := c.lease / 2, c.lease / 4;
            && Ticks(c, h - 1).phase == Bound && Ticks(c, h) == c.(phase := Renewing, timer := 0)
            && SentIn(c, h) == 1
            && Half(c.lease) == h && Quarter(c.lease) == q
            && Sane(c.(phase := Renewing, timer := 0)) && Sane(c.(phase := Rebinding, timer := 0))
  {
    hide TickStep;
    var h := c.lease / 2;
    var last := c.(timer := h - 1);
    SilentWhileBound(c, h - 1);
    TicksJoin(c, h - 1, 1);
    SentInJoins(c, h - 1, 1);
    TickIsTicked(last);
    OneTick(last);
    TickSends(last);
  }

  lemma OneTick(c: Client)
    ensures Ticks(c, 1) == TickStep(c).client && SentIn(c, 1) == |TickStep(c).sent|
  {
    hide TickStep;
    assert Ticks(TickStep(c).client, 0) == TickStep(c).client && SentIn(TickStep(c).client, 0) == 0;
  }

  lemma {:induction false} QuarterPasses(c: Client, k: nat)
    requires Sane(c) && c.active && c.phase in {Renewing, Rebinding} && c.timer + k == Quarter(c.lease) && k > 0
    ensures Ticks(c, k) == c.(phase := if c.phase == Renewing then Rebinding else Init, timer := 0)
    decreases k
  {
    hide TickStep, Quarter;
    TickIsTicked(c);
    TicksOn(c);
    if k == 1 { OneTick(c); } else { QuarterPasses(TickStep(c).client, k - 1); }
  }

  /** A lease that is never acknowledged again costs one request when it is half over, and one more for every five
      seconds of each of the two quarters behind. */
  lemma RequestsOfALease(c: Client)
    requires Sane(c) && c.active && c.phase == Bound && c.timer == 0 && c.lease >= 8
    ensures SentIn(c, Term(c.lease)) == 1 + 2 * (c.lease / 4 / 5)
  {
    hide TickStep, Half, Quarter, Sane, Ticks, SentIn;
    var h, q := c.lease / 2, c.lease / 4;
    var r, b := c.(phase := Renewing, timer := 0), c.(phase := Rebinding, timer := 0);
    RenewalTimes(c);
    HalfPasses(c);
    SentWhileRenewing(r, q);
    SentWhileRenewing(b, q);
    SentInJoins(c, h, q);
    SentInJoins(c, h + q, q);
  }

  // ---- switched on, and configured ----

  /** The last start or stop. */
  function Switched(c: Client, es: seq<Event>): bool
  {
    if es == [] then c.active
    else if es[|es| - 1].StartEvent? then true
    else if es[|es| - 1].StopEvent? then false
    else Switched(c, es[..|es| - 1])
  }

  lemma {:induction false} ActiveIsSwitched(c: Client, es: seq<Event>)
    ensures Run(c, es).active == Switched(c, es)
  {
    if es != [] {
      var before, e := es[..|es| - 1], es[|es| - 1];
      ActiveIsSwitched(c, before);
      ActiveStep(Run(c, before), e);
    }
  }

  lemma ActiveStep(c: Client, e: Event)
    ensures Step(c, e).active == if e.StartEvent? then true else if e.StopEvent? then false else c.active
    ensures e.StartEvent? || e.StopEvent? ==> Step(c, e).phase == if e.StartEvent? && c.active then c.phase else
            if e.StopEvent? && !c.active then c.phase else Init
  {
    hide NextId, XidOf, YourAddress, Options;
  }

  /** What the network layer has been told. */
  datatype Network = Network(ip: nat, netmask: nat, gateway: nat)

  /** What an offer says: the network, who made it, the name server and the lease. */
  datatype Terms = Terms(network: Network, server: nat, dns: nat, lease: nat)

  /** What the last offer taken up said, since the client was last switched on; renewing may have changed its lease. */
  function Offered(c: Client, es: seq<Event>): Terms
  {
    if es == [] then TermsOf(c)
    else
      var before, e := es[..|es| - 1], es[|es| - 1];
      var now := Run(c, before);
      if e.StartEvent? && !Switched(c, before) then Terms(Network(0, 0, 0), 0, 0, 0)
      else if e.PacketEvent? && IsReply(now, e.p, e.length) && now.phase == Selecting && Options(e.p).kind == 2 then
        TermsIn(e.p)
      else if Renews(now, e) then Offered(c, before).(lease := Options(e.p).lease)
      else Offered(c, before)
  }

  function TermsIn(p: seq<Byte>): Terms
    requires |p| >= MESSAGE
  {
    var f := Options(p);
    Terms(Network(YourAddress(p), f.mask, f.router), f.server, f.dns, f.lease)
  }

  function TermsOf(c: Client): Terms { Terms(Network(c.offered, c.mask, c.router), c.server, c.dns, c.lease) }

  /** The configuration: cleared when the client is switched on, taken over from the offer when that is acknowledged,
      mask and gateway only if the offer named them. Nothing else touches it, not even the end of the lease. */
  function Configuration(c: Client, es: seq<Event>): Network
  {
    if es == [] then Network(c.ip, c.netmask, c.gateway)
    else
      var before, e := es[..|es| - 1], es[|es| - 1];
      var now, was, offer := Run(c, before), Configuration(c, before), Offered(c, before).network;
      if e.StartEvent? && !Switched(c, before) then Network(0, 0, 0)
      else if e.PacketEvent? && IsReply(now, e.p, e.length) && now.phase == Requesting && Options(e.p).kind == 5 then
        Network(offer.ip, if offer.netmask != 0 then offer.netmask else was.netmask,
                if offer.gateway != 0 then offer.gateway else was.gateway)
      else was
  }

  /** In every run the network layer has exactly that configuration, and the client the terms of that offer. */
  lemma {:induction false} ConfigurationIs(c: Client, es: seq<Event>)
    ensures var now := Run(c, es);
            && Network(now.ip, now.netmask, now.gateway) == Configuration(c, es)
            && TermsOf(now) == Offered(c, es)
  {
    hide Step;
    if es != [] {
      var before, e := es[..|es| - 1], es[|es| - 1];
      ConfigurationIs(c, before);
      ActiveIsSwitched(c, before);
      ConfigurationStep(Run(c, before), e);
    }
  }

  lemma ConfigurationStep(c: Client, e: Event)
    ensures var c' := Step(c, e);
            var took := e.PacketEvent? && IsReply(c, e.p, e.length);
            && (c'.ip, c'.netmask, c'.gateway) ==
               (if e.StartEvent? && !c.active then (0, 0, 0)
                else if took && c.phase == Requesting && Options(e.p).kind == 5 then
                  (c.offered, if c.mask != 0 then c.mask else c.netmask, if c.router != 0 then c.router else c.gateway)
                else (c.ip, c.netmask, c.gateway))
            && TermsOf(c') ==
               (if e.StartEvent? && !c.active then Terms(Network(0, 0, 0), 0, 0, 0)
                else if took && c.phase == Selecting && Options(e.p).kind == 2 then TermsIn(e.p)
                else if Renews(c, e) then TermsOf(c).(lease := Options(e.p).lease)
                else TermsOf(c))
  {
    hide NextId, XidOf, YourAddress, Options;
  }

  // ---- replies ----

  /** A reply is a message of 548 bytes or more, with 2 in front and the client's id behind the first four bytes. */
  lemma ReplyIff(c: Client, p: seq<Byte>, length: nat)
    ensures IsReply(c, p, length) <==>
            && c.active && length >= 548 && |p| >= 548 && p[0] == 2
            && c.xid == Four(p[4], p[5], p[6], p[7])
  {
    if |p| >= 548 {
      SwappedLoad(p[4..8]);
      hide De32, Htonl;
    }
  }

  lemma YourAddressIs(p: seq<Byte>)
    requires |p| >= 548
    ensures YourAddress(p) == Four(p[16], p[17], p[18], p[19])
  {
    SwappedLoad(p[16..20]);
    hide De32, Htonl;
  }

  /** Where replies lead: 2 is taken up in SELECTING, 5 and 6 are answers to a request and to a lease. All others, and
      all packets that are no replies, change nothing and are not answered. */
  lemma RepliesLead(c: Client, p: seq<Byte>, length: nat)
    requires IsReply(c, p, length)
    ensures var kind, r := Options(p).kind, PacketStep(c, p, length);
            if c.phase == Selecting && kind == 2 then
              r.client.phase == Requesting && r.client.timer == 0 && r.sent == [3]
            else if (c.phase == Requesting || c.Leased()) && kind == 5 then
              r.client.phase == Bound && r.client.timer == 0 && r.sent == []
            else if (c.phase == Requesting || c.Leased()) && kind == 6 then
              r == Outcome(c.(phase := Init, timer := 0), [])
            else r == Outcome(c, [])
  {
    hide NextId, XidOf, YourAddress, Options;
  }

  // ---- getting an address ----

  /** The exchange of section 3.1 of RFC 2131, with any offer and acknowledgement that carry the id of the second draw:
      DISCOVER and REQUEST are sent, and the client is bound to what it was offered. */
  lemma Handshake(c: Client, offer: seq<Byte>, ack: seq<Byte>)
    requires !c.active && |offer| >= 548 && |ack| >= 548 && offer[0] == 2 && ack[0] == 2
    requires Options(offer).kind == 2 && Options(ack).kind == 5
    requires XidOf(offer) == XidOf(ack) == Drawn(Drawn(c.seed))
    ensures var c1 := Step(c, StartEvent); var c2 := Step(c1, TickEvent);
            var c3 := Step(c2, PacketEvent(offer, 548)); var c4 := Step(c3, PacketEvent(ack, 548));
            && Act(c, StartEvent).sent == [] && Act(c1, TickEvent).sent == [1]
            && Act(c2, PacketEvent(offer, 548)).sent == [3] && Act(c3, PacketEvent(ack, 548)).sent == []
            && c4.active && c4.phase == Bound && c4.timer == 0
            && c4.ip == YourAddress(offer) && c4.netmask == Options(offer).mask && c4.gateway == Options(offer).router
            && c4.server == Options(offer).server && c4.dns == Options(offer).dns && c4.lease == Options(offer).lease
  {
    hide XidOf, YourAddress, Options;
  }

  /** A draw of the generator. */
  function Drawn(seed: nat): nat { (seed * 1103515245 + 12345) % 0x1_0000_0000 }
}
