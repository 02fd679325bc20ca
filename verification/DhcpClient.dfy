/**
 The DHCP client: its static variables, changed by ticks, by packets and by starting and stopping it.

 The timers are those of the code, half the lease, a quarter and a quarter again, not the T1 and T2 of section
 4.4.5 of RFC 2131; an expired lease sends the client back to discovery and leaves the address in place.
 */
module DhcpClient {
  import opened Bytes
  import opened DhcpOptions
  import opened TransactionIds

  datatype Phase = Init | Selecting | Requesting | Bound | Renewing | Rebinding | InitReboot

  const DISCOVER: Byte := 1
  const OFFER: Byte := 2
  const REQUEST: Byte := 3
  const ACK: Byte := 5
  const NAK: Byte := 6
  const RELEASE: Byte := 7

  /** The variables of the client, and the three of the network layer that it sets. */
  datatype Client = Client(
    active: bool, phase: Phase, xid: nat, seed: nat, timer: nat,
    server: nat, offered: nat, lease: nat, mask: nat, router: nat, dns: nat,
    ip: nat, gateway: nat, netmask: nat)
  {
    predicate Leased() { phase in {Bound, Renewing, Rebinding} }
    predicate Waiting() { phase in {Selecting, Requesting} }
  }

  /** A step gives the client and the kinds of the messages it sends, in order. */
  datatype Outcome = Outcome(client: Client, sent: seq<Byte>)

  // ---- the steps ----

  function StartStep(c: Client): Outcome
  {
    if c.active then Outcome(c, [])
    else
      var id := NextId(c.seed);
      Outcome(c.(active := true, phase := Init, xid := id, seed := id, timer := 0, server := 0, offered := 0,
                 lease := 0, mask := 0, router := 0, dns := 0, ip := 0, gateway := 0, netmask := 0), [])
  }

  function StopStep(c: Client): Outcome
  {
    if !c.active then Outcome(c, [])
    else Outcome(c.(active := false, phase := Init), if c.phase == Bound && c.server != 0 then [RELEASE] else [])
  }

  function Retry(timer: nat): seq<Byte> { if timer % 5 == 0 then [REQUEST] else [] }

  function TickStep(c0: Client): Outcome
  {
    if !c0.active then Outcome(c0, [])
    else
      var t := (c0.timer + 1) % WORD;
      var c := c0.(timer := t);
      match c.phase
      case Init =>
        var id := NextId(c.seed);
        Outcome(c.(xid := id, seed := id, phase := Selecting, timer := 0), [DISCOVER])
      case Selecting => Outcome(if t >= 10 then c.(phase := Init, timer := 0) else c, [])
      case Requesting => Outcome(if t >= 10 then c.(phase := Init, timer := 0) else c, [])
      case Bound =>
        if c.lease > 0 && t >= c.lease / 2 then Outcome(c.(phase := Renewing, timer := 0), [REQUEST])
        else Outcome(c, [])
      case Renewing =>
        Outcome(if c.lease > 0 && t >= c.lease / 4 then c.(phase := Rebinding, timer := 0) else c, Retry(t))
      case Rebinding => Outcome(if c.lease > 0 && t >= c.lease / 4 then c.(phase := Init, timer := 0) else c, Retry(t))
      case InitReboot => Outcome(c, [])
  }

  /** A packet that the client takes for a reply to it. */
  predicate IsReply(c: Client, p: seq<Byte>, length: nat)
  {
    c.active && length >= MESSAGE && |p| >= MESSAGE && Opcode(p) == 2 && XidOf(p) == c.xid
  }

  /** What a reply with fields `f` and address `yours` does. */
  function ReplyStep(c: Client, yours: nat, f: Fields): Outcome
  {
    match c.phase
    case Selecting =>
      if f.kind == OFFER then
        Outcome(c.(offered := yours, server := f.server, lease := f.lease, mask := f.mask, router := f.router,
                   dns := f.dns, phase := Requesting, timer := 0), [REQUEST])
      else Outcome(c, [])
    case Requesting =>
      if f.kind == ACK then
        Outcome(c.(ip := c.offered, netmask := if c.mask != 0 then c.mask else c.netmask,
                   gateway := if c.router != 0 then c.router else c.gateway, phase := Bound, timer := 0), [])
      else if f.kind == NAK then Outcome(c.(phase := Init, timer := 0), [])
      else Outcome(c, [])
    case Bound | Renewing | Rebinding =>
      if f.kind == ACK then
        Outcome(c.(phase := Bound, timer := 0, lease := if f.lease != 0 then f.lease else c.lease), [])
      else if f.kind == NAK then Outcome(c.(phase := Init, timer := 0), [])
      else Outcome(c, [])
    case _ => Outcome(c, [])
  }

  function PacketStep(c: Client, p: seq<Byte>, length: nat): Outcome
  {
    if IsReply(c, p, length) then ReplyStep(c, YourAddress(p), Options(p)) else Outcome(c, [])
  }

  // ---- the client itself ----

  class DhcpService {
    var active: bool
    var phase: Phase
    var xid: nat
    var seed: nat
    var timer: nat
    var server: nat
    var offered: nat
    var lease: nat
    var mask: nat
    var router: nat
    var dns: nat
    var ip: nat
    var gateway: nat
    var netmask: nat

    function State(): Client
      reads this
    {
      Client(active, phase, xid, seed, timer, server, offered, lease, mask, router, dns, ip, gateway, netmask)
    }

    constructor ()
      ensures State() == PowerOn()
    {
      active, phase, xid, seed, timer := false, Init, 0, 12345, 0;
      server, offered, lease, mask, router, dns, ip, gateway, netmask := 0, 0, 0, 0, 0, 0, 0, 0, 0;
    }

    /** `dhcp_random`. */
    method Random() returns (id: nat)
      modifies this`seed
      ensures seed == id == NextId(old(seed))
    {
      seed := NextId(seed);
      return seed;
    }

    /** `dhcp_start`. */
    method Start() returns (ok: bool)
      modifies this
      ensures ok && State() == StartStep(old(State())).client
    {
      hide NextId, DhcpService.State;
      if IsActive() { return true; }
      Activate();
      ClearLease();
      ClearNetwork();
      return true;
    }

    /** `dhcp_is_active`. */
    function IsActive(): (r: bool)
      reads this
      ensures r == State().active
    {
      active
    }

    /** A new session: in discovery, under a new id. */
    method Activate()
      modifies this`active, this`phase, this`xid, this`seed, this`timer
      ensures State() == old(State()).(active := true, phase := Init, xid := NextId(old(State()).seed),
              seed := NextId(old(State()).seed), timer := 0)
    {
      hide NextId;
      active, phase := true, Init;
      xid := Random();
      timer := 0;
    }

    /** What is known of a lease, forgotten. */
    method ClearLease()
      modifies this`server, this`offered, this`lease, this`mask, this`router, this`dns
      ensures State() == old(State()).(server := 0, offered := 0, lease := 0, mask := 0, router := 0, dns := 0)
    {
      server, offered, lease, mask, router, dns := 0, 0, 0, 0, 0, 0;
    }

    /** The network configuration, cleared. */
    method ClearNetwork()
      modifies this`ip, this`gateway, this`netmask
      ensures State() == old(State()).(ip := 0, gateway := 0, netmask := 0)
    {
      ip, gateway, netmask := 0, 0, 0;
    }

    /** `dhcp_stop`; the result lists the kinds of the messages sent. */
    method Stop() returns (sent: seq<Byte>)
      modifies this`active, this`phase
      ensures Outcome(State(), sent) == StopStep(old(State()))
    {
      sent := [];
      if !active { return; }
      if phase == Bound && server != 0 { sent := [RELEASE]; }
      active, phase := false, Init;
    }

    /** `dhcp_tick`, once a second. */
    method Tick() returns (sent: seq<Byte>)
      modifies this
      ensures Outcome(State(), sent) == TickStep(old(State()))
    {
      hide NextId;
      sent := [];
      if !active { return; }
      timer := (timer + 1) % WORD;
      match phase
      case Init =>
        xid := Random();
        phase, timer := Selecting, 0;
        sent := [DISCOVER];
      case Selecting =>
        if timer >= 10 { phase, timer := Init, 0; }
      case Requesting =>
        if timer >= 10 { phase, timer := Init, 0; }
      case Bound =>
        if lease > 0 && timer >= lease / 2 {
          phase, timer := Renewing, 0;
          sent := [REQUEST];
        }
      case Renewing =>
        if timer % 5 == 0 { sent := [REQUEST]; }
        if lease > 0 && timer >= lease / 4 { phase, timer := Rebinding, 0; }
      case Rebinding =>
        if timer % 5 == 0 { sent := [REQUEST]; }
        if lease > 0 && timer >= lease / 4 { phase, timer := Init, 0; }
      case InitReboot =>
    }

    /** `dhcp_process_packet`. */
    method ProcessPacket(p: seq<Byte>, length: nat) returns (sent: seq<Byte>)
      requires length <= |p|
      modifies this
      ensures Outcome(State(), sent) == PacketStep(old(State()), p, length)
    {
      hide Parse, XidOf, YourAddress, ReplyStep;
      sent := [];
      if !active || length < MESSAGE { return; }
      if Opcode(p) != 2 || XidOf(p) != xid { return; }
      var f := ParseOptions(OptionArea(p), AREA, NO_FIELDS);
      assert OptionArea(p)[..AREA] == OptionArea(p);
      sent := HandleReply(YourAddress(p), f);
    }

    /** An offer, noted. */
    method TakeOffer(yours: nat, f: Fields)
      modifies this
      ensures State() == old(State()).(offered := yours, server := f.server, lease := f.lease, mask := f.mask,
                                       router := f.router, dns := f.dns, phase := Requesting, timer := 0)
    {
      offered := yours;
      server, lease, mask, router, dns := f.server, f.lease, f.mask, f.router, f.dns;
      phase := Requesting;
      timer := 0;
    }

    /** The network configured as offered. */
    method Configure()
      modifies this`ip, this`netmask, this`gateway, this`phase, this`timer
      ensures var c := old(State());
              State() == c.(ip := c.offered, netmask := if c.mask != 0 then c.mask else c.netmask,
                            gateway := if c.router != 0 then c.router else c.gateway, phase := Bound, timer := 0)
    {
      ip := offered;
      if mask != 0 { netmask := mask; }
      if router != 0 { gateway := router; }
      phase, timer := Bound, 0;
    }

    /** Its `switch` on the state. */
    method HandleReply(yours: nat, f: Fields) returns (sent: seq<Byte>)
      modifies this
      ensures Outcome(State(), sent) == ReplyStep(old(State()), yours, f)
    {
      sent := [];
      match phase
      case Selecting =>
        if f.kind == OFFER {
          TakeOffer(yours, f);
          sent := [REQUEST];
        }
      case Requesting =>
        if f.kind == ACK {
          Configure();
        } else if f.kind == NAK {
          phase, timer := Init, 0;
        }
      case Bound | Renewing | Rebinding =>
        if f.kind == ACK {
          phase, timer := Bound, 0;
          if f.lease != 0 { lease := f.lease; }
        } else if f.kind == NAK {
          phase, timer := Init, 0;
        }
      case _ =>
    }
  }

  /** The values of the static variables. */
  function PowerOn(): Client { Client(false, Init, 0, 12345, 0, 0, 0, 0, 0, 0, 0, 0, 0, 0) }
}
