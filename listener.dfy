/** The listener's dispatch: in a first phase frames sent to the FDP address go to the FDP
    decoder, in a second phase frames sent to the LLDP nearest-bridge address go to the
    LLDP decoder, and a decoded identity becomes the Switch, Port and Vlan entries that are
    handed to persistence. */
module Listener {
  import opened Bytes
  import opened Decoding
  import Text
  import Lldp
  import Fdp

  /** The Foundry Discovery Protocol multicast address 01-E0-52-CC-CC-CC. */
  const FDP_ADDRESS: seq<Byte> := [0x01, 0xE0, 0x52, 0xCC, 0xCC, 0xCC]
  /** The LLDP nearest-bridge group address 01-80-C2-00-00-0E (section 7.1 of IEEE 802.1AB). */
  const LLDP_ADDRESS: seq<Byte> := [0x01, 0x80, 0xC2, 0x00, 0x00, 0x0E]
  /** The shortest frame an Ethernet packet view accepts: two addresses and the EtherType. */
  const ETHERNET_HEADER: nat := 14
  const ADDRESS_BYTES: nat := 6

  /** A registry entry: a value name and its data. */
  datatype Entry = Entry(key: string, value: string)

  /** What handling one captured frame comes to. */
  datatype Handling =
    | Ignored                     // not an Ethernet frame, or not sent to the phase's address
    | NoEntries                   // decoded, but the decoder found no identity
    | Persist(entries: seq<Entry>) // the entries handed to persistence
    | Aborted(at: nat, reason: Panic)   // the decoder panicked at the TLV at offset `at`
    | Hangs(at: nat)                  // the decoder loops forever at the TLV at offset `at`

  /** The frame is an Ethernet frame sent to `address`. */
  predicate SentTo(frame: seq<Byte>, address: seq<Byte>)
    requires |address| == ADDRESS_BYTES
  {
    |frame| >= ETHERNET_HEADER && frame[..ADDRESS_BYTES] == address
  }

  /** The entries `handle_fdp` builds from a decoded FDP identity. */
  function FdpEntries(g: Fdp.Fields): (entries: seq<Entry>)
    ensures |entries| == 3
    ensures entries[0].key == "Switch" && entries[1].key == "Port" && entries[2].key == "Vlan"
    ensures entries[0].value == Fdp.SwitchDisplay(g.switchName, g.switchIp)
    ensures entries[1].value == g.switchPort
    ensures entries[2].value == Fdp.VlanDisplay(g.switchVlanD, g.switchVlanV)
  {
    [ Entry("Switch", Fdp.SwitchDisplay(g.switchName, g.switchIp)),
      Entry("Port", g.switchPort),
      Entry("Vlan", Fdp.VlanDisplay(g.switchVlanD, g.switchVlanV)) ]
  }

  /** The entries `handle_lldp` builds from a decoded LLDP identity. */
  function LldpEntries(q: Lldp.Pdu): (entries: seq<Entry>)
    ensures |entries| == 3
    ensures entries[0].key == "Switch" && entries[1].key == "Port" && entries[2].key == "Vlan"
    ensures entries[0].value == q.fields.systemDescription
    ensures entries[1].value == q.fields.portDescription
    ensures entries[2].value == q.fields.vlan
  {
    [ Entry("Switch", q.fields.systemDescription),
      Entry("Port", q.fields.portDescription),
      Entry("Vlan", q.fields.vlan) ]
  }

  /** `handle_fdp` on values: entries only for an identity. */
  function FdpHandling(frame: seq<Byte>): (h: Handling)
    ensures h.Persist? <==> Fdp.Decode(frame).Identity?
    ensures h.Persist? ==> h.entries == FdpEntries(Fdp.Decode(frame).pdu)
    ensures !h.Ignored?
  {
    match Fdp.Decode(frame)
    case Identity(g) => Persist(FdpEntries(g))
    case NoIdentity => NoEntries
    case Crash(at, e) => Aborted(at, e)
    case Diverges(at) => Hangs(at)
  }

  /** `handle_lldp` on values: entries only for an identity. */
  function LldpHandling(frame: seq<Byte>): (h: Handling)
    ensures h.Persist? <==> Lldp.Decode(frame).Identity?
    ensures h.Persist? ==> h.entries == LldpEntries(Lldp.Decode(frame).pdu)
    ensures !h.Ignored? && !h.Hangs?
  {
    match Lldp.Decode(frame)
    case Identity(q) => Persist(LldpEntries(q))
    case NoIdentity => NoEntries
    case Crash(at, e) => Aborted(at, e)
  }

  /** The first listen phase: only Ethernet frames sent to the FDP address reach the FDP
      decoder; every other frame is ignored. */
  function FirstPhase(frame: seq<Byte>): (h: Handling)
    ensures !h.Ignored? <==> SentTo(frame, FDP_ADDRESS)
    ensures !h.Ignored? ==> h == FdpHandling(frame)
  {
    if |frame| < ETHERNET_HEADER then Ignored
    else if frame[..ADDRESS_BYTES] == FDP_ADDRESS then FdpHandling(frame)
    else Ignored
  }

  /** The second listen phase: only Ethernet frames sent to the LLDP address reach the LLDP
      decoder; every other frame is ignored. A frame that gets there always holds the two
      MAC addresses the decoder slices, so it never panics for being short. */
  function SecondPhase(frame: seq<Byte>): (h: Handling)
    ensures !h.Ignored? <==> SentTo(frame, LLDP_ADDRESS)
    ensures !h.Ignored? ==> h == LldpHandling(frame)
    ensures h.Aborted? ==> h.reason != FrameTooShort
  {
    if |frame| < ETHERNET_HEADER then Ignored
    else if frame[..ADDRESS_BYTES] == LLDP_ADDRESS then LldpHandling(frame)
    else Ignored
  }

  /** No frame is handled in both phases: the two addresses differ. */
  lemma PhasesDisjoint(frame: seq<Byte>)
    ensures FirstPhase(frame).Ignored? || SecondPhase(frame).Ignored?
  {
    if !FirstPhase(frame).Ignored? {
      assert frame[..ADDRESS_BYTES][1] == 0xE0;
    }
  }

  /** The Vlan entry an LLDP frame persists is the decimal Port VLAN ID of the frame's
      last accepted Port VLAN ID TLV. */
  lemma LldpVlanEntry(frame: seq<Byte>)
    requires SecondPhase(frame).Persist?
    ensures var hs := Lldp.ScanFrom(frame, Lldp.TLV_START).headers;
      exists k :: 0 <= k < |hs| && Lldp.AcceptedAt(frame, hs[k])
        && (forall j :: k < j < |hs| ==> !Lldp.AcceptedAt(frame, hs[j]))
        && SecondPhase(frame).entries[2].value == Lldp.VlanText(frame, hs[k])
  {
    Lldp.DecodeIdentity(frame);
  }

  /** The Vlan entry an FDP frame persists splits at its comma into the VLANs it shows. */
  lemma FdpVlanEntry(frame: seq<Byte>)
    requires FirstPhase(frame).Persist?
    ensures var g := Fdp.Decode(frame).pdu;
      Text.Split(FirstPhase(frame).entries[2].value, ',') ==
        if |g.switchVlanD| > 0 && |g.switchVlanV| > 0 then [g.switchVlanD, g.switchVlanV]
        else if |g.switchVlanD| > 0 then [g.switchVlanD]
        else [g.switchVlanV]
  {
    Fdp.DecodeVlanDisplaySplits(frame);
  }

  /** `handle_fdp`: decodes the frame and, for an identity, pushes the three entries. */
  method HandleFdp(frame: seq<Byte>) returns (h: Handling)
    ensures h == FdpHandling(frame)
  {
    var r := Fdp.FdpPdu.New(frame);
    ghost var d := Fdp.Decode(frame);
    assert Fdp.Observe(r) == d;
    match r {
      case Identity(pdu) =>
        var entries: seq<Entry> := [];
        var switch := pdu.Switch();
        entries := entries + [Entry("Switch", switch)];
        entries := entries + [Entry("Port", pdu.switchPort)];
        var vlan := pdu.Vlan();
        entries := entries + [Entry("Vlan", vlan)];
        assert entries == FdpEntries(d.pdu);
        h := Persist(entries);
      case NoIdentity =>
        h := NoEntries;
      case Crash(at, e) =>
        h := Aborted(at, e);
      case Diverges(at) =>
        h := Hangs(at);
    }
  }

  /** `handle_lldp`: decodes the frame and, for an identity, pushes the three entries. */
  method HandleLldp(frame: seq<Byte>) returns (h: Handling)
    ensures h == LldpHandling(frame)
  {
    h := NoEntries;
    var r := Lldp.LldpPdu.New(frame);
    match r {
      case Identity(pdu) =>
        var entries: seq<Entry> := [];
        entries := entries + [Entry("Switch", pdu.systemDescription)];
        entries := entries + [Entry("Port", pdu.portDescription)];
        entries := entries + [Entry("Vlan", pdu.vlan)];
        h := Persist(entries);
      case NoIdentity =>
        h := NoEntries;
      case Crash(at, e) =>
        h := Aborted(at, e);
      case Diverges(_) =>
        assert false;
    }
  }

  /** The first phase's callback on one captured frame. */
  method OnFirstPhaseFrame(frame: seq<Byte>) returns (h: Handling)
    ensures h == FirstPhase(frame)
  {
    h := Ignored;
    if |frame| >= ETHERNET_HEADER {
      if frame[..ADDRESS_BYTES] == FDP_ADDRESS {
        h := HandleFdp(frame);
      }
    }
  }

  /** The second phase's callback on one captured frame. */
  method OnSecondPhaseFrame(frame: seq<Byte>) returns (h: Handling)
    ensures h == SecondPhase(frame)
  {
    h := Ignored;
    if |frame| >= ETHERNET_HEADER {
      if frame[..ADDRESS_BYTES] == LLDP_ADDRESS {
        h := HandleLldp(frame);
      }
    }
  }
}
