/** The FDP decoder: walks the TLVs of a Foundry Discovery Protocol frame and records the
    switch's device name, address, interface and VLANs. */
module Fdp {
  import opened Wrappers
  import opened Bytes
  import opened Decoding
  import Text
  import Utf8

  // TLV type codes.
  const DEVICE_ID: nat := 0x0001
  const NET: nat := 0x0002
  const INTERFACE: nat := 0x0003
  const CAPABILITIES: nat := 0x0004
  const VERSION: nat := 0x0005
  const PLATFORM: nat := 0x0006
  const VLAN: nat := 0x0102
  const TAG_INFO: nat := 0x0108

  /** The TLVs start after the 14-byte Ethernet header and the 12 bytes of SNAP and FDP header. */
  const TLV_START: nat := 26
  /** The switch's IPv4 address is the last four bytes of a Net TLV. */
  const IP_BYTES: nat := 4
  /** A Tag-Info TLV must reach its voice VLAN, value bytes 7 and 8. */
  const TAG_INFO_MIN: nat := 13

  /** The fields of `FdpPdu` that TLVs set. */
  datatype Fields = Fields(
    valid: bool,
    switchName: string,
    switchIp: string,
    switchPort: string,
    switchVlanD: string,
    switchVlanV: string)

  const BLANK: Fields := Fields(false, "", "", "", "", "")

  // ------------------------------------------------------- one TLV's value

  /** The value of the TLV at `index` with length `l` (the bytes after its 4-byte header). */
  function Value(bytes: seq<Byte>, index: nat, l: nat): seq<Byte>
    requires 4 <= l && index + l <= |bytes|
  {
    bytes[index + 4 .. index + l]
  }

  /** The four bytes the Net TLV reads: the last four of the TLV, whatever its length. */
  function IpBytes(bytes: seq<Byte>, index: nat, l: nat): (ip: seq<Byte>)
    requires TLV_START <= index && index + l <= |bytes|
    ensures |ip| == IP_BYTES
  {
    bytes[index + l - IP_BYTES .. index + l]
  }

  /** A Device-ID TLV whose value is valid UTF-8: the only kind that makes the PDU valid. */
  predicate DeviceIdDecodes(bytes: seq<Byte>, index: nat, t: nat, l: nat)
    requires index + l <= |bytes|
  {
    t == DEVICE_ID && 4 <= l && Utf8.Decode(Value(bytes, index, l)).Some?
  }

  /** The TLVs on which the decoder panics: a Device-ID, Interface or Tag-Info TLV shorter
      than its own header (the value slice starts after it ends), a Tag-Info TLV too short
      for the voice VLAN, and a VLAN TLV whose two value bytes lie past the frame. */
  predicate StepPanics(bytes: seq<Byte>, index: nat, t: nat, l: nat) {
    || ((t == DEVICE_ID || t == INTERFACE) && l < 4)
    || (t == TAG_INFO && l < TAG_INFO_MIN)
    || (t == VLAN && index + 5 >= |bytes|)
  }

  /** One pass of the loop body of `FdpPdu::new` over the TLV at `index`, on values. */
  function Step(bytes: seq<Byte>, index: nat, t: nat, l: nat, f: Fields): (r: Result<Fields, Panic>)
    requires TLV_START <= index && index + l <= |bytes|
    ensures r.Failure? <==> StepPanics(bytes, index, t, l)
    ensures r.Success? ==> r.value.valid == (f.valid || DeviceIdDecodes(bytes, index, t, l))
  {
    if t == DEVICE_ID then
      if l < 4 then Failure(ValueTooShort)
      else match Utf8.Decode(Value(bytes, index, l))
        case Some(name) => Success(f.(switchName := name, valid := true))
        case None => Success(f)
    else if t == NET then
      Success(f.(switchIp := Text.Join(Text.Decimals(IpBytes(bytes, index, l)), ".")))
    else if t == INTERFACE then
      if l < 4 then Failure(ValueTooShort)
      else match Utf8.Decode(Value(bytes, index, l))
        case Some(port) => Success(f.(switchPort := Text.Letterless(port)))
        case None => Success(f)
    else if t == VLAN then
      if index + 5 >= |bytes| then Failure(ReadOverrun)
      else
        var data := Be16(bytes[index + 4], bytes[index + 5]);
        if |f.switchVlanD| == 0 && data != 0 then Success(f.(switchVlanD := Text.Decimal(data)))
        else Success(f)
    else if t == TAG_INFO then
      if l < TAG_INFO_MIN then Failure(ValueTooShort)
      else
        var data := Be16(bytes[index + 6], bytes[index + 7]);
        var voice := Be16(bytes[index + 11], bytes[index + 12]);
        Success(f.(switchVlanD := Text.Decimal(data), switchVlanV := Text.Decimal(voice)))
    else
      Success(f)
  }

  /** What each TLV type stores: the Device-ID's name when it decodes, the Net TLV's last
      four bytes in dotted decimal, the Interface's name without letters when it decodes,
      the VLAN TLV's data VLAN only when none is set yet and it is not 0, and both Tag-Info
      VLANs always. Capabilities, Version, Platform and unknown types change nothing. */
  lemma StepFields(bytes: seq<Byte>, index: nat, t: nat, l: nat, f: Fields)
    requires TLV_START <= index && index + l <= |bytes| && !StepPanics(bytes, index, t, l)
    ensures var g := Step(bytes, index, t, l, f).value;
      && g.switchName == (if DeviceIdDecodes(bytes, index, t, l) then Utf8.Decode(Value(bytes, index, l)).value
                          else f.switchName)
      && g.switchIp == (if t == NET then Text.Join(Text.Decimals(IpBytes(bytes, index, l)), ".") else f.switchIp)
      && g.switchPort == (if t == INTERFACE && Utf8.Decode(Value(bytes, index, l)).Some?
                          then Text.Letterless(Utf8.Decode(Value(bytes, index, l)).value) else f.switchPort)
      && (t == VLAN ==>
            var data := Be16(bytes[index + 4], bytes[index + 5]);
            g.switchVlanD == (if |f.switchVlanD| == 0 && data != 0 then Text.Decimal(data) else f.switchVlanD))
      && (t == TAG_INFO ==>
            && g.switchVlanD == Text.Decimal(Be16(bytes[index + 6], bytes[index + 7]))
            && g.switchVlanV == Text.Decimal(Be16(bytes[index + 11], bytes[index + 12])))
      && (t != VLAN && t != TAG_INFO ==> g.switchVlanD == f.switchVlanD)
      && (t != TAG_INFO ==> g.switchVlanV == f.switchVlanV)
      && (t !in {DEVICE_ID, NET, INTERFACE, VLAN, TAG_INFO} ==> g == f)
  {
  }

  /** A VLAN TLV never replaces a data VLAN that is already set; only Tag-Info does. */
  lemma VlanKeepsDataVlan(bytes: seq<Byte>, index: nat, l: nat, f: Fields)
    requires TLV_START <= index && index + l <= |bytes| && !StepPanics(bytes, index, VLAN, l)
    requires |f.switchVlanD| > 0
    ensures Step(bytes, index, VLAN, l, f) == Success(f)
  {
  }

  /** A zero-length TLV that does not panic leaves the cursor where it is, and passing
      over it again changes nothing: the loop of `FdpPdu::new` repeats it forever. */
  lemma ZeroLengthStepIdempotent(bytes: seq<Byte>, index: nat, t: nat, f: Fields)
    requires TLV_START <= index <= |bytes| && !StepPanics(bytes, index, t, 0)
    ensures var g := Step(bytes, index, t, 0, f).value; Step(bytes, index, t, 0, g) == Success(g)
  {
    var g := Step(bytes, index, t, 0, f).value;
    if t == VLAN {
      var data := Be16(bytes[index + 4], bytes[index + 5]);
      if |f.switchVlanD| == 0 && data != 0 {
        assert |g.switchVlanD| > 0;
      }
    }
  }

  /** The name stored from a Device-ID TLV is exactly what it carries: its UTF-8 encoding is the value. */
  lemma SwitchNameRoundTrip(bytes: seq<Byte>, index: nat, l: nat, f: Fields)
    requires TLV_START <= index && index + l <= |bytes| && DeviceIdDecodes(bytes, index, DEVICE_ID, l)
    ensures var g := Step(bytes, index, DEVICE_ID, l, f).value;
      g.valid && Utf8.Encode(g.switchName) == Value(bytes, index, l)
  {
    Utf8.EncodeDecode(Value(bytes, index, l));
  }

  /** The address stored from a Net TLV gives back its four bytes: four pieces between the
      dots, each reading as one byte in decimal. */
  lemma SwitchIpRoundTrip(bytes: seq<Byte>, index: nat, l: nat, f: Fields)
    requires TLV_START <= index && index + l <= |bytes|
    ensures var ip := Step(bytes, index, NET, l, f).value.switchIp;
      var pieces := Text.Decimals(IpBytes(bytes, index, l));
      && Text.Split(ip, '.') == pieces
      && forall k :: 0 <= k < IP_BYTES ==> Text.AllDigits(pieces[k]) && Text.DecimalValue(pieces[k]) == IpBytes(bytes, index, l)[k]
  {
    Text.DottedDecimalRoundTrip(IpBytes(bytes, index, l));
  }

  // --------------------------------------------------------------- the walk

  datatype Header = Header(offset: nat, typ: nat, len: nat)

  /** The header at `index`: type in bytes 0-1 and length in bytes 2-3, big-endian. */
  function HeaderAt(bytes: seq<Byte>, index: nat): (h: Header)
    requires index + 3 < |bytes|
    ensures h.offset == index && h.typ < 0x1_0000 && h.len < 0x1_0000
  {
    Header(index, Be16(bytes[index], bytes[index + 1]), Be16(bytes[index + 2], bytes[index + 3]))
  }

  /** Why the cursor stops: fewer than two bytes left, fewer than four (the length cannot
      be read), a length running past the frame, or a zero length that keeps the cursor in place. */
  datatype Stop = Exhausted | HeaderCut | TooLong | Spin

  datatype Scan = Scan(headers: seq<Header>, end: nat, stop: Stop)

  /** The TLV headers the cursor of `FdpPdu::new` visits from `index` on, where it stops
      and why (`ScanShape` states what this means). */
  function ScanFrom(bytes: seq<Byte>, index: nat): Scan
    decreases |bytes| - index
  {
    if index + 1 < |bytes| then
      if index + 3 >= |bytes| then Scan([], index, HeaderCut)
      else
        var h := HeaderAt(bytes, index);
        if index + h.len > |bytes| then Scan([], index, TooLong)
        else if h.len == 0 then Scan([h], index, Spin)
        else
          var rest := ScanFrom(bytes, index + h.len);
          Scan([h] + rest.headers, rest.end, rest.stop)
    else Scan([], index, Exhausted)
  }

  /** The scan is a chain of TLVs inside the frame, each starting where the one before
      ends; it stops exactly when fewer than two bytes remain, when fewer than four remain,
      when a length runs past the frame, or at a zero-length TLV, which is then its last. */
  lemma {:induction false} ScanShape(bytes: seq<Byte>, index: nat)
    ensures var s := ScanFrom(bytes, index);
      && (|s.headers| > 0 ==> s.headers[0].offset == index)
      && (forall k :: 0 <= k < |s.headers| ==>
            s.headers[k].offset + s.headers[k].len <= |bytes|
            && s.headers[k].offset + 3 < |bytes|
            && s.headers[k] == HeaderAt(bytes, s.headers[k].offset))
      && (forall k :: 0 <= k < |s.headers| - 1 ==>
            s.headers[k].len > 0 && s.headers[k + 1].offset == s.headers[k].offset + s.headers[k].len)
      && (s.stop == Spin <==> |s.headers| > 0 && s.headers[|s.headers| - 1].len == 0)
      && (s.stop == Spin ==> s.end == s.headers[|s.headers| - 1].offset)
      && (s.stop != Spin ==> s.end == if |s.headers| == 0 then index
                                     else s.headers[|s.headers| - 1].offset + s.headers[|s.headers| - 1].len)
      && (s.stop == Exhausted <==> s.end + 1 >= |bytes|)
      && (s.stop == HeaderCut <==> s.end + 1 < |bytes| <= s.end + 3)
      && (s.stop == TooLong ==> s.end + 3 < |bytes| && s.end + HeaderAt(bytes, s.end).len > |bytes|)
    decreases |bytes| - index
  {
    if index + 3 < |bytes| {
      var h := HeaderAt(bytes, index);
      if index + h.len <= |bytes| && h.len > 0 {
        var next := index + h.len;
        ScanShape(bytes, next);
        var s := ScanFrom(bytes, index);
        var rest := ScanFrom(bytes, next);
        assert s.headers == [h] + rest.headers;
        forall k | 0 < k < |s.headers|
          ensures s.headers[k] == rest.headers[k - 1]
        {
        }
      }
    }
  }

  /** The loop of `FdpPdu::new` from `index` on, with the fields `f` set so far. */
  function WalkFrom(bytes: seq<Byte>, index: nat, f: Fields): (r: Walk<Fields>)
    requires TLV_START <= index
    ensures r.Panicked? ==> r.at >= index && r.reason in {HeaderOverrun, ValueTooShort, ReadOverrun}
    ensures r.Spins? ==> r.at >= index
    decreases |bytes| - index
  {
    if index + 1 < |bytes| then
      if index + 3 >= |bytes| then Panicked(index, HeaderOverrun)
      else
        var h := HeaderAt(bytes, index);
        if index + h.len > |bytes| then Ended(f)
        else match Step(bytes, index, h.typ, h.len, f)
          case Failure(e) => Panicked(index, e)
          case Success(g) => if h.len == 0 then Spins(index) else WalkFrom(bytes, index + h.len, g)
    else Ended(f)
  }

  /** `FdpPdu::new` on values. */
  function Decode(bytes: seq<Byte>): (r: Outcome<Fields>)
    ensures r.Identity? ==> r.pdu.valid
    ensures r.Crash? ==> r.reason in {HeaderOverrun, ValueTooShort, ReadOverrun}
  {
    match WalkFrom(bytes, TLV_START, BLANK)
    case Ended(g) => if g.valid then Identity(g) else NoIdentity
    case Panicked(at, e) => Crash(at, e)
    case Spins(at) => Diverges(at)
  }

  // ------------------------------------------------- what the walk computes

  /** The header `h` opens a Device-ID TLV whose name decodes. */
  predicate DeviceIdAt(bytes: seq<Byte>, h: Header) {
    h.offset + h.len <= |bytes| && DeviceIdDecodes(bytes, h.offset, h.typ, h.len)
  }

  /** One TLV of a walk that ends: it is the first header of the scan, it is not of length
      zero, and the walk goes on after it with the fields it leaves. */
  lemma WalkStep(bytes: seq<Byte>, index: nat, f: Fields) returns (next: nat, g: Fields)
    requires TLV_START <= index && WalkFrom(bytes, index, f).Ended?
    requires index + 3 < |bytes| && index + HeaderAt(bytes, index).len <= |bytes|
    ensures var h := HeaderAt(bytes, index);
      && h.len > 0 && next == index + h.len
      && Step(bytes, index, h.typ, h.len, f) == Success(g)
      && ScanFrom(bytes, index).headers == [h] + ScanFrom(bytes, next).headers
      && WalkFrom(bytes, next, g) == WalkFrom(bytes, index, f)
      && g.valid == (f.valid || DeviceIdAt(bytes, h))
  {
    var h := HeaderAt(bytes, index);
    g := Step(bytes, index, h.typ, h.len, f).value;
    next := index + h.len;
  }

  /** Some header of `hs` opens a Device-ID TLV whose name decodes. */
  predicate AnyDeviceId(bytes: seq<Byte>, hs: seq<Header>) {
    hs != [] && (DeviceIdAt(bytes, hs[0]) || AnyDeviceId(bytes, hs[1..]))
  }

  lemma {:induction false} AnyDeviceIdIffSome(bytes: seq<Byte>, hs: seq<Header>)
    ensures AnyDeviceId(bytes, hs) <==> exists k :: 0 <= k < |hs| && DeviceIdAt(bytes, hs[k])
    decreases |hs|
  {
    if hs != [] {
      AnyDeviceIdIffSome(bytes, hs[1..]);
      if exists k :: 0 <= k < |hs| && DeviceIdAt(bytes, hs[k]) {
        var k :| 0 <= k < |hs| && DeviceIdAt(bytes, hs[k]);
        if k > 0 {
          assert hs[1..][k - 1] == hs[k];
        }
      }
      if exists k :: 0 <= k < |hs| - 1 && DeviceIdAt(bytes, hs[1..][k]) {
        var k :| 0 <= k < |hs| - 1 && DeviceIdAt(bytes, hs[1..][k]);
        assert hs[k + 1] == hs[1..][k];
      }
    }
  }

  /** A walk that ends met no zero-length TLV and no cut header, and it is valid exactly
      when it started valid or one of its TLVs is a Device-ID whose name decodes. */
  lemma {:induction false} WalkValidity(bytes: seq<Byte>, index: nat, f: Fields)
    requires TLV_START <= index && WalkFrom(bytes, index, f).Ended?
    ensures ScanFrom(bytes, index).stop in {Exhausted, TooLong}
    ensures WalkFrom(bytes, index, f).pdu.valid == (f.valid || AnyDeviceId(bytes, ScanFrom(bytes, index).headers))
    decreases |bytes| - index
  {
    if index + 1 < |bytes| && index + 3 < |bytes| && index + HeaderAt(bytes, index).len <= |bytes| {
      var next, g := WalkStep(bytes, index, f);
      WalkValidity(bytes, next, g);
      assert ScanFrom(bytes, index).headers[1..] == ScanFrom(bytes, next).headers;
    }
  }

  /** A walk that reaches a zero-length TLV or a cut header never ends: it spins on the
      zero-length TLV or panics, there or at an earlier TLV. A walk that spins does so at
      the scan's zero-length TLV. */
  lemma {:induction false} WalkStops(bytes: seq<Byte>, index: nat, f: Fields)
    requires TLV_START <= index
    ensures ScanFrom(bytes, index).stop in {Spin, HeaderCut} ==> !WalkFrom(bytes, index, f).Ended?
    ensures WalkFrom(bytes, index, f).Spins? ==>
      ScanFrom(bytes, index).stop == Spin && WalkFrom(bytes, index, f).at == ScanFrom(bytes, index).end
    decreases |bytes| - index
  {
    if index + 3 < |bytes| {
      var h := HeaderAt(bytes, index);
      if index + h.len <= |bytes| && h.len > 0 {
        var r := Step(bytes, index, h.typ, h.len, f);
        if r.Success? {
          WalkStops(bytes, index + h.len, r.value);
        }
      }
    }
  }

  // ------------------------------------------------- the decode as a whole

  /** `FdpPdu::new` gives `Some` exactly when it neither panics nor spins and the frame
      holds a Device-ID TLV whose name is valid UTF-8. */
  lemma DecodeIdentityIffDeviceId(bytes: seq<Byte>)
    ensures var hs := ScanFrom(bytes, TLV_START).headers;
      (Decode(bytes).Identity? || Decode(bytes).NoIdentity?) ==>
        (Decode(bytes).Identity? <==> exists k :: 0 <= k < |hs| && DeviceIdAt(bytes, hs[k]))
  {
    if WalkFrom(bytes, TLV_START, BLANK).Ended? {
      WalkValidity(bytes, TLV_START, BLANK);
      AnyDeviceIdIffSome(bytes, ScanFrom(bytes, TLV_START).headers);
    }
  }

  /** `FdpPdu::new` runs forever only at a zero-length TLV, the last the scan reaches, and
      it never returns once the scan reaches one or a header it cannot read. */
  lemma DecodeDivergesAtZeroLength(bytes: seq<Byte>)
    ensures Decode(bytes).Diverges? ==>
      var s := ScanFrom(bytes, TLV_START);
      && s.stop == Spin && Decode(bytes).at == s.end
      && s.end + 3 < |bytes| && HeaderAt(bytes, s.end).len == 0
    ensures ScanFrom(bytes, TLV_START).stop in {Spin, HeaderCut} ==>
      Decode(bytes).Crash? || Decode(bytes).Diverges?
  {
    WalkStops(bytes, TLV_START, BLANK);
    ScanShape(bytes, TLV_START);
  }

  // ----------------------------------------------------------- the displays

  /** `switch()`: the name, then the address in parentheses, a space between them when both are set. */
  function SwitchDisplay(name: string, ip: string): (s: string)
    ensures |s| == |name| + (if |ip| > 0 then |ip| + 2 + (if |name| > 0 then 1 else 0) else 0)
    ensures |s| == 0 <==> |name| == 0 && |ip| == 0
    ensures s[..|name|] == name
    ensures |ip| > 0 ==> s[|s| - |ip| - 2..] == "(" + ip + ")"
    ensures |ip| == 0 ==> s == name
    ensures |name| > 0 && |ip| > 0 ==> s[|name|] == ' '
  {
    var named := if |name| > 0 then name else "";
    if |ip| > 0 then (if |named| > 0 then named + " " else named) + "(" + ip + ")"
    else named
  }

  /** `vlan()`: the data VLAN and the voice VLAN, a comma between them when both are set. */
  function VlanDisplay(data: string, voice: string): (s: string)
    ensures |s| == 0 <==> |data| == 0 && |voice| == 0
  {
    var shown := if |data| > 0 then data else "";
    if |voice| > 0 then (if |shown| > 0 then shown + "," else shown) + voice
    else shown
  }

  /** The VLAN display separates its parts: split at the comma it gives back the VLANs that
      are set, in order, whenever neither contains a comma (decimal renderings never do). */
  lemma VlanDisplaySplits(data: string, voice: string)
    requires Text.NoneIn(data, ',') && Text.NoneIn(voice, ',')
    ensures Text.Split(VlanDisplay(data, voice), ',') ==
      if |data| > 0 && |voice| > 0 then [data, voice]
      else if |data| > 0 then [data]
      else [voice]
  {
    if |data| > 0 && |voice| > 0 {
      Text.SplitAfterSeparator(data, ',', voice);
      Text.SplitNoSeparator(data, ',');
      assert VlanDisplay(data, voice) == data + [','] + voice;
    } else if |data| > 0 {
      Text.SplitNoSeparator(data, ',');
    } else {
      Text.SplitNoSeparator(voice, ',');
      assert VlanDisplay(data, voice) == voice;
    }
  }

  /** Decimal renderings contain no comma. */
  lemma DecimalHasNoComma(n: nat)
    ensures Text.NoneIn(Text.Decimal(n), ',')
  {
    var s := Text.Decimal(n);
    Text.DecimalDigits(n);
    forall i | 0 <= i < |s| ensures s[i] != ',' {
      assert Text.IsDigit(s[i]);
    }
  }

  /** Both VLAN fields are free of commas. */
  predicate VlansCommaFree(f: Fields) {
    Text.NoneIn(f.switchVlanD, ',') && Text.NoneIn(f.switchVlanV, ',')
  }

  /** Every VLAN the decoder stores is a decimal rendering, so the VLAN fields stay free of commas. */
  lemma {:induction false} WalkKeepsVlansCommaFree(bytes: seq<Byte>, index: nat, f: Fields)
    requires TLV_START <= index && VlansCommaFree(f) && WalkFrom(bytes, index, f).Ended?
    ensures VlansCommaFree(WalkFrom(bytes, index, f).pdu)
    decreases |bytes| - index
  {
    if index + 1 < |bytes| && index + 3 < |bytes| && index + HeaderAt(bytes, index).len <= |bytes| {
      var h := HeaderAt(bytes, index);
      StepFields(bytes, index, h.typ, h.len, f);
      if h.typ == VLAN {
        DecimalHasNoComma(Be16(bytes[index + 4], bytes[index + 5]));
      } else if h.typ == TAG_INFO {
        DecimalHasNoComma(Be16(bytes[index + 6], bytes[index + 7]));
        DecimalHasNoComma(Be16(bytes[index + 11], bytes[index + 12]));
      }
      var next, g := WalkStep(bytes, index, f);
      WalkKeepsVlansCommaFree(bytes, next, g);
    }
  }

  /** The VLAN display of a decoded identity splits at its comma into the VLANs it shows. */
  lemma DecodeVlanDisplaySplits(bytes: seq<Byte>)
    requires Decode(bytes).Identity?
    ensures var g := Decode(bytes).pdu;
      Text.Split(VlanDisplay(g.switchVlanD, g.switchVlanV), ',') ==
        if |g.switchVlanD| > 0 && |g.switchVlanV| > 0 then [g.switchVlanD, g.switchVlanV]
        else if |g.switchVlanD| > 0 then [g.switchVlanD]
        else [g.switchVlanV]
  {
    WalkKeepsVlansCommaFree(bytes, TLV_START, BLANK);
    var g := Decode(bytes).pdu;
    VlanDisplaySplits(g.switchVlanD, g.switchVlanV);
  }

  /** The loop of the Net arm: pushes each byte in decimal, a dot before all but the first. */
  method DottedDecimal(bs: seq<Byte>) returns (ip: string)
    ensures ip == Text.Join(Text.Decimals(bs), ".")
  {
    ip := "";
    for i := 0 to |bs|
      invariant ip == Text.Join(Text.Decimals(bs[..i]), ".")
      invariant |ip| == 0 <==> i == 0
    {
      var parts := Text.Decimals(bs[..i + 1]);
      assert parts[..i] == Text.Decimals(bs[..i]);
      if |ip| == 0 {
        ip := ip + Text.Decimal(bs[i]);
      } else {
        ip := ip + "." + Text.Decimal(bs[i]);
      }
    }
    assert bs[..|bs|] == bs;
  }

  // -------------------------------------------------------- the mutable PDU

  /** The decoded packet that `FdpPdu::new` builds in place. */
  class FdpPdu {
    const bytes: seq<Byte>
    var valid: bool
    var switchName: string
    var switchIp: string
    var switchPort: string
    var switchVlanD: string
    var switchVlanV: string

    function View(): Fields
      reads this
    {
      Fields(valid, switchName, switchIp, switchPort, switchVlanD, switchVlanV)
    }

    constructor (bytes: seq<Byte>)
      ensures this.bytes == bytes && View() == BLANK
    {
      this.bytes := bytes;
      valid := false;
      switchName := "";
      switchIp := "";
      switchPort := "";
      switchVlanD := "";
      switchVlanV := "";
    }

    /** `FdpPdu::new`: walks the TLVs from offset 26, advancing by each TLV's length. A
        zero-length TLV that does not panic is where the source loops forever; the method
        stops there and reports it. */
    static method New(bytes: seq<Byte>) returns (r: Outcome<FdpPdu>)
      ensures Observe(r) == Decode(bytes)
      ensures r.Identity? ==> fresh(r.pdu) && r.pdu.bytes == bytes
    {
      var pdu := new FdpPdu(bytes);
      var index := TLV_START;
      while true
        invariant fresh(pdu) && pdu.bytes == bytes && TLV_START <= index
        invariant WalkFrom(bytes, index, pdu.View()) == WalkFrom(bytes, TLV_START, BLANK)
        decreases |bytes| - index
      {
        if index + 1 < |bytes| {
          if index + 3 >= |bytes| {
            return Crash(index, HeaderOverrun);
          }
          var t := Be16(bytes[index], bytes[index + 1]);
          var l := Be16(bytes[index + 2], bytes[index + 3]);
          if index + l > |bytes| {
            break;
          }
          var panic := pdu.ReadTlv(index, t, l);
          if panic.Some? {
            return Crash(index, panic.value);
          }
          if l == 0 {
            return Diverges(index);
          }
          index := index + l;
        } else {
          break;
        }
      }
      r := if pdu.valid then Identity(pdu) else NoIdentity;
    }

    /** The `match` of the loop body of `FdpPdu::new`: reads the TLV at `index` with type
        `t` and length `l` into the fields, or names the panic it causes. */
    method ReadTlv(index: nat, t: nat, l: nat) returns (panic: Option<Panic>)
      requires TLV_START <= index && index + l <= |bytes|
      modifies this
      ensures match Step(bytes, index, t, l, old(View()))
        case Failure(e) => panic == Some(e)
        case Success(g) => panic == None && View() == g
    {
      if t == DEVICE_ID {
        if l < 4 {
          return Some(ValueTooShort);
        }
        var value := Utf8.Decode(bytes[index + 4 .. index + l]);
        if value.Some? {
          switchName := value.value;
          valid := true;
        }
      } else if t == NET {
        var ip := DottedDecimal(bytes[index + l - IP_BYTES .. index + l]);
        switchIp := ip;
      } else if t == INTERFACE {
        if l < 4 {
          return Some(ValueTooShort);
        }
        var value := Utf8.Decode(bytes[index + 4 .. index + l]);
        if value.Some? {
          var port := Text.RemoveChars(value.value);
          switchPort := port;
        }
      } else if t == VLAN {
        if index + 5 >= |bytes| {
          return Some(ReadOverrun);
        }
        var data := Be16(bytes[index + 4], bytes[index + 5]);
        if |switchVlanD| == 0 && data != 0 {
          switchVlanD := Text.Decimal(data);
        }
      } else if t == TAG_INFO {
        if l < TAG_INFO_MIN {
          return Some(ValueTooShort);
        }
        var vlanBytes := bytes[index + 4 .. index + l];
        switchVlanD := Text.Decimal(Be16(vlanBytes[2], vlanBytes[3]));
        switchVlanV := Text.Decimal(Be16(vlanBytes[7], vlanBytes[8]));
      }
      panic := None;
    }

    /** `switch()`: builds the display by pushing the parts that are set. */
    method Switch() returns (s: string)
      ensures s == SwitchDisplay(switchName, switchIp)
    {
      s := "";
      if |switchName| > 0 {
        s := s + switchName;
      }
      if |switchIp| > 0 {
        if |s| > 0 {
          s := s + " ";
        }
        s := s + "(" + switchIp + ")";
      }
    }

    /** `vlan()`: builds the display by pushing the VLANs that are set. */
    method Vlan() returns (s: string)
      ensures s == VlanDisplay(switchVlanD, switchVlanV)
    {
      s := "";
      if |switchVlanD| > 0 {
        s := s + switchVlanD;
      }
      if |switchVlanV| > 0 {
        if |s| > 0 {
          s := s + ",";
        }
        s := s + switchVlanV;
      }
    }
  }

  /** The value an `Outcome` of `FdpPdu::new` stands for. */
  function Observe(r: Outcome<FdpPdu>): Outcome<Fields>
    reads if r.Identity? then {r.pdu} else {}
  {
    match r
    case Identity(pdu) => Identity(pdu.View())
    case NoIdentity => NoIdentity
    case Crash(at, e) => Crash(at, e)
    case Diverges(at) => Diverges(at)
  }
}
