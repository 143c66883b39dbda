/** The LLDP decoder: walks the TLVs of a Link Layer Discovery Protocol frame (section 8
    of IEEE 802.1AB) and records the port description, the system name and the Port VLAN
    ID (Annex D.2.1 of IEEE 802.1Q) they carry. */
module Lldp {
  import opened Wrappers
  import opened Bytes
  import opened Decoding
  import Text
  import Utf8

  // TLV type codes (section 8.4 of IEEE 802.1AB).
  const END_OF_LLDP_PDU: nat := 0x00
  const CHASSIS_ID: nat := 0x01
  const PORT_ID: nat := 0x02
  const TIME_TO_LIVE: nat := 0x03
  const PORT_DESCRIPTION: nat := 0x04
  const SYSTEM_NAME: nat := 0x05
  const SYSTEM_DESCRIPTION: nat := 0x06
  const SYSTEM_CAPABILITIES: nat := 0x07
  const MANAGEMENT_ADDRESS: nat := 0x08
  const VLAN_ID: nat := 0x7F

  /** The frame must hold the destination and source MAC addresses, bytes 0 to 11. */
  const MAC_BYTES: nat := 12
  /** The TLVs start right after the 14-byte Ethernet header. */
  const TLV_START: nat := 14
  /** The IEEE 802.1 organizationally unique identifier 00-80-C2. */
  const IEEE_802_1_OUI: seq<Byte> := [0x00, 0x80, 0xC2]

  const RESERVED: string := "Reserved or Custom TLV"
  const END_OF_PDU: string := "End of PDU"

  predicate IsNamedType(typ: nat) {
    typ <= 8 || typ == VLAN_ID
  }

  /** `Tlv::get_typ`: the name of a type code; every code without a name is reserved. */
  function TypeName(typ: nat): (name: string)
    ensures (name == RESERVED) <==> !IsNamedType(typ)
  {
    if typ == END_OF_LLDP_PDU then "END_OF_LLDP_PDU"
    else if typ == CHASSIS_ID then "CHASSIS_ID"
    else if typ == PORT_ID then "PORT_ID"
    else if typ == TIME_TO_LIVE then "TIME_TO_LIVE"
    else if typ == PORT_DESCRIPTION then "PORT_DESCRIPTION"
    else if typ == SYSTEM_NAME then "SYSTEM_NAME"
    else if typ == SYSTEM_DESCRIPTION then "SYSTEM_DESCRIPTION"
    else if typ == SYSTEM_CAPABILITIES then "SYSTEM_CAPABILITIES"
    else if typ == MANAGEMENT_ADDRESS then "MANAGEMENT_ADDRESS"
    else if typ == VLAN_ID then "VLAN_ID"
    else RESERVED
  }

  /** Named codes have distinct names, so a name identifies its code. */
  lemma TypeNamesDistinct(a: nat, b: nat)
    requires IsNamedType(a) && IsNamedType(b) && a != b
    ensures TypeName(a) != TypeName(b)
  {
  }

  // ------------------------------------------------------------ the header

  datatype TypLen = TypLen(typ: nat, len: nat)

  /** `parse_typ_len`: the 16 header bits hold a 7-bit type followed by a 9-bit length. */
  function ParseTypLen(b0: Byte, b1: Byte): (h: TypLen)
    ensures h.typ < 128 && h.len < 512
  {
    TypLen(b0 / 2, (b0 % 2) * 256 + b1)
  }

  /** The type and the length make up the header word: type in the high 7 bits, length in the low 9. */
  lemma ParseTypLenWord(b0: Byte, b1: Byte)
    ensures var h := ParseTypLen(b0, b1); h.typ * 512 + h.len == Be16(b0, b1)
  {
  }

  /** The split is the only one: any 7-bit type and 9-bit length that make up the header
      word are the ones `ParseTypLen` gives. */
  lemma TypLenUnique(b0: Byte, b1: Byte, typ: nat, len: nat)
    requires typ < 128 && len < 512 && typ * 512 + len == Be16(b0, b1)
    ensures ParseTypLen(b0, b1) == TypLen(typ, len)
  {
    ParseTypLenWord(b0, b1);
  }

  // ------------------------------------------------------ the decoded record

  /** A recorded TLV: its type, declared length and the text it was rendered to. */
  datatype Tlv = Tlv(typ: nat, len: nat, val: string)

  /** The fields of `LldpPdu` that TLVs set. */
  datatype Fields = Fields(
    valid: bool,
    chassisId: string,
    portId: string,
    portDescription: string,
    systemDescription: string,
    vlan: string)

  const BLANK: Fields := Fields(false, "", "", "", "", "")

  /** What `parse_value` gives back: the updated fields and the TLV to record. */
  datatype Parsed = Parsed(fields: Fields, tlv: Tlv)

  /** An `LldpPdu` as a value: its fields and the TLVs recorded so far. */
  datatype Pdu = Pdu(fields: Fields, tlvs: seq<Tlv>)

  // ------------------------------------------------------- one TLV's value

  // `tlvBytes` is a whole TLV, header included, so value byte k is `tlvBytes[2 + k]`.

  /** Value bytes 0 to 2 hold the OUI 00-80-C2. */
  predicate HasIeeeOui(tlvBytes: seq<Byte>)
    requires |tlvBytes| >= 5
  {
    tlvBytes[2] == IEEE_802_1_OUI[0] && tlvBytes[3] == IEEE_802_1_OUI[1] && tlvBytes[4] == IEEE_802_1_OUI[2]
  }

  /** A Port VLAN ID TLV the decoder accepts: organizationally specific, OUI 00-80-C2, length 6. */
  predicate IsAcceptedVlan(typ: nat, len: nat, tlvBytes: seq<Byte>)
    requires |tlvBytes| == len + 2
  {
    typ == VLAN_ID && len == 6 && HasIeeeOui(tlvBytes)
  }

  /** The port VLAN identifier: value bytes 4 and 5, big-endian. */
  function PortVlanId(tlvBytes: seq<Byte>): nat
    requires |tlvBytes| == 8
  {
    Be16(tlvBytes[6], tlvBytes[7])
  }

  predicate IsTextType(typ: nat) {
    typ == PORT_DESCRIPTION || typ == SYSTEM_NAME || typ == SYSTEM_DESCRIPTION
  }

  /** The TLVs on which `parse_value` panics: an empty Chassis-ID or Port-ID (no subtype
      byte), a Time-to-Live shorter than 2, a text value that is not UTF-8, and an
      organizationally specific TLV too short to hold an OUI. */
  predicate ValuePanics(typ: nat, len: nat, tlvBytes: seq<Byte>)
    requires |tlvBytes| == len + 2
  {
    || ((typ == CHASSIS_ID || typ == PORT_ID) && len == 0)
    || (typ == TIME_TO_LIVE && len < 2)
    || (IsTextType(typ) && Utf8.Decode(tlvBytes[2..]).None?)
    || (typ == VLAN_ID && len < 3)
  }

  /** `parse_value` on values: the fields after one TLV and the TLV recorded for it. */
  function ParsedValue(f: Fields, typ: nat, len: nat, tlvBytes: seq<Byte>): (r: Result<Parsed, Panic>)
    requires |tlvBytes| == len + 2
    ensures r.Failure? <==> ValuePanics(typ, len, tlvBytes)
    ensures r.Failure? ==> r.error == if IsTextType(typ) then InvalidUtf8 else ValueTooShort
    ensures r.Success? ==> r.value.tlv.typ == typ && r.value.tlv.len == len
    ensures r.Success? ==> r.value.fields.valid == (f.valid || IsAcceptedVlan(typ, len, tlvBytes))
    ensures r.Success? ==>
      r.value.fields.vlan == (if IsAcceptedVlan(typ, len, tlvBytes) then Text.Decimal(PortVlanId(tlvBytes)) else f.vlan)
  {
    if typ == END_OF_LLDP_PDU then
      Success(Parsed(f, Tlv(typ, len, END_OF_PDU)))
    else if typ == CHASSIS_ID then
      if len == 0 then Failure(ValueTooShort)
      else
        var value := Text.HexJoin(tlvBytes[3..], ":");
        Success(Parsed(f.(chassisId := value), Tlv(typ, len, value)))
    else if typ == PORT_ID then
      if len == 0 then Failure(ValueTooShort)
      else
        var value := Text.HexJoin(tlvBytes[3..], ":");
        Success(Parsed(f.(portId := value), Tlv(typ, len, value)))
    else if typ == TIME_TO_LIVE then
      if len < 2 then Failure(ValueTooShort)
      else Success(Parsed(f, Tlv(typ, len, Text.Decimal(Be16(tlvBytes[2], tlvBytes[3])))))
    else if IsTextType(typ) then
      match Utf8.Decode(tlvBytes[2..])
      case None => Failure(InvalidUtf8)
      case Some(text) =>
        if typ == PORT_DESCRIPTION then
          var value := Text.Letterless(text);
          Success(Parsed(f.(portDescription := value), Tlv(typ, len, value)))
        else if typ == SYSTEM_NAME then
          Success(Parsed(f.(systemDescription := text), Tlv(typ, len, text)))
        else
          Success(Parsed(f, Tlv(typ, len, text)))
    else if typ == SYSTEM_CAPABILITIES || typ == MANAGEMENT_ADDRESS then
      Success(Parsed(f, Tlv(typ, len, Text.HexJoin(tlvBytes[2..], ", "))))
    else if typ == VLAN_ID then
      if len < 3 then Failure(ValueTooShort)
      else if HasIeeeOui(tlvBytes) && len == 6 then
        var value := Text.Decimal(Be16(tlvBytes[6], tlvBytes[7]));
        var f' := if |value| != 0 then f.(valid := true) else f;
        var value' := if |value| != 0 then Text.Letterless(value) else value;
        Text.LetterlessOfDecimal(Be16(tlvBytes[6], tlvBytes[7]));
        Success(Parsed(f'.(vlan := value'), Tlv(typ, len, value')))
      else Success(Parsed(f, Tlv(typ, len, RESERVED)))
    else
      Success(Parsed(f, Tlv(typ, len, RESERVED)))
  }

  /** What `parse_value` stores and records for each type: the Chassis-ID and Port-ID in
      colon-separated hexadecimal after the subtype byte, the port description stripped
      of letters, the system name as received; every other field is left as it was. */
  lemma ParsedValueFields(f: Fields, typ: nat, len: nat, tlvBytes: seq<Byte>)
    requires |tlvBytes| == len + 2 && !ValuePanics(typ, len, tlvBytes)
    ensures var v := ParsedValue(f, typ, len, tlvBytes).value;
      && v.fields.chassisId == (if typ == CHASSIS_ID then Text.HexJoin(tlvBytes[3..], ":") else f.chassisId)
      && v.fields.portId == (if typ == PORT_ID then Text.HexJoin(tlvBytes[3..], ":") else f.portId)
      && v.fields.portDescription ==
           (if typ == PORT_DESCRIPTION then Text.Letterless(Utf8.Decode(tlvBytes[2..]).value) else f.portDescription)
      && v.fields.systemDescription ==
           (if typ == SYSTEM_NAME then Utf8.Decode(tlvBytes[2..]).value else f.systemDescription)
      && (typ == CHASSIS_ID ==> v.tlv.val == v.fields.chassisId)
      && (typ == PORT_ID ==> v.tlv.val == v.fields.portId)
      && (typ == PORT_DESCRIPTION ==> v.tlv.val == v.fields.portDescription)
      && (typ == SYSTEM_NAME ==> v.tlv.val == v.fields.systemDescription)
      && (IsAcceptedVlan(typ, len, tlvBytes) ==> v.tlv.val == v.fields.vlan)
      && (typ == END_OF_LLDP_PDU ==> v.tlv.val == END_OF_PDU)
      && (!IsNamedType(typ) || (typ == VLAN_ID && !IsAcceptedVlan(typ, len, tlvBytes)) ==> v.tlv.val == RESERVED)
  {
  }

  /** The Chassis-ID and Port-ID text gives the value bytes back: split at the colons, each
      piece is the two hexadecimal digits of one byte after the subtype. A TLV holding only
      the subtype stores the empty string. */
  lemma IdentifierRoundTrip(f: Fields, typ: nat, len: nat, tlvBytes: seq<Byte>)
    requires |tlvBytes| == len + 2 && (typ == CHASSIS_ID || typ == PORT_ID) && len >= 1
    ensures var v := ParsedValue(f, typ, len, tlvBytes).value;
      var id := if typ == CHASSIS_ID then v.fields.chassisId else v.fields.portId;
      len == 1 ==> id == ""
    ensures var v := ParsedValue(f, typ, len, tlvBytes).value;
      var id := if typ == CHASSIS_ID then v.fields.chassisId else v.fields.portId;
      var pieces := Text.Split(id, ':');
      len >= 2 ==>
      && |pieces| == len - 1
      && forall k :: 0 <= k < len - 1 ==>
           |pieces[k]| == 2 && Text.IsHexDigit(pieces[k][0]) && Text.IsHexDigit(pieces[k][1])
           && Text.HexDigitValue(pieces[k][0]) * 16 + Text.HexDigitValue(pieces[k][1]) == tlvBytes[3 + k]
  {
    ParsedValueFields(f, typ, len, tlvBytes);
    if len >= 2 {
      Text.HexColonRoundTrip(tlvBytes[3..]);
    }
  }

  /** The system name is stored exactly as received: its UTF-8 encoding is the value bytes. */
  lemma SystemNameRoundTrip(f: Fields, len: nat, tlvBytes: seq<Byte>)
    requires |tlvBytes| == len + 2 && !ValuePanics(SYSTEM_NAME, len, tlvBytes)
    ensures Utf8.Encode(ParsedValue(f, SYSTEM_NAME, len, tlvBytes).value.fields.systemDescription) == tlvBytes[2..]
  {
    Utf8.EncodeDecode(tlvBytes[2..]);
  }

  /** The stored port description holds no letter, and it is the received text with its
      letters taken out. */
  lemma PortDescriptionLetterFree(f: Fields, len: nat, tlvBytes: seq<Byte>)
    requires |tlvBytes| == len + 2 && !ValuePanics(PORT_DESCRIPTION, len, tlvBytes)
    ensures var d := ParsedValue(f, PORT_DESCRIPTION, len, tlvBytes).value.fields.portDescription;
      && (forall i :: 0 <= i < |d| ==> !Text.IsAlphabetic(d[i]))
      && Text.Letterless(d) == d
      && d == Text.Letterless(Utf8.Decode(tlvBytes[2..]).value)
  {
    Text.LetterlessIdempotent(Utf8.Decode(tlvBytes[2..]).value);
    Text.LetterlessLetterFree(Utf8.Decode(tlvBytes[2..]).value);
  }

  /** The stored VLAN reads back, in decimal, as the Port VLAN ID carried by the TLV. */
  lemma VlanRoundTrip(f: Fields, len: nat, tlvBytes: seq<Byte>)
    requires |tlvBytes| == len + 2 && IsAcceptedVlan(VLAN_ID, len, tlvBytes)
    ensures var v := ParsedValue(f, VLAN_ID, len, tlvBytes).value;
      v.fields.valid && Text.AllDigits(v.fields.vlan) && Text.DecimalValue(v.fields.vlan) == PortVlanId(tlvBytes) < 0x1_0000
  {
    Text.DecimalRoundTrip(PortVlanId(tlvBytes));
  }

  // --------------------------------------------------------------- the walk

  /** The header that starts at `index`. */
  datatype Header = Header(offset: nat, typ: nat, len: nat)

  function HeaderAt(bytes: seq<Byte>, index: nat): (h: Header)
    requires index + 1 < |bytes|
    ensures h.offset == index && h.typ < 128 && h.len < 512
    ensures h.typ * 512 + h.len == Be16(bytes[index], bytes[index + 1])
  {
    var t := ParseTypLen(bytes[index], bytes[index + 1]);
    ParseTypLenWord(bytes[index], bytes[index + 1]);
    Header(index, t.typ, t.len)
  }

  /** The whole TLV (header and value) lies inside the frame. */
  predicate Fits(bytes: seq<Byte>, h: Header) {
    h.offset + 2 + h.len <= |bytes|
  }

  function TlvBytes(bytes: seq<Byte>, h: Header): (tlvBytes: seq<Byte>)
    requires Fits(bytes, h)
    ensures |tlvBytes| == h.len + 2
  {
    bytes[h.offset .. h.offset + 2 + h.len]
  }

  /** Why the cursor stops: fewer than two bytes left, a declared length longer than what
      is left (the guard), or one of the two lengths the guard lets through although the
      TLV does not fit (`len` is one or two more than the bytes after the header). */
  datatype Stop = Exhausted | TooLong | Overrun

  datatype Scan = Scan(headers: seq<Header>, end: nat, stop: Stop)

  /** How one turn of the loop of `LldpPdu::new` ends. */
  datatype Move = Advance(next: nat) | Halt | Fault(reason: Panic)

  /** The TLV headers the cursor of `LldpPdu::new` visits from `index` on, where it stops
      and why (`ScanShape` states what this means). */
  function ScanFrom(bytes: seq<Byte>, index: nat): Scan
    decreases |bytes| - index, 0
  {
    if index + 1 < |bytes| then
      var h := HeaderAt(bytes, index);
      if h.len > |bytes| - index then Scan([], index, TooLong)
      else if index + 1 + h.len >= |bytes| then Scan([], index, Overrun)
      else
        var rest := ScanAfter(bytes, index + 2 + h.len);
        Scan([h] + rest.headers, rest.end, rest.stop)
    else Scan([], index, Exhausted)
  }

  /** The scan picks up again at `index` after a TLV that fits. The indirection makes the
      solver unfold `ScanFrom` by only one TLV at a time. */
  function ScanAfter(bytes: seq<Byte>, index: nat): Scan
    decreases |bytes| - index, 1
  {
    ScanFrom(bytes, index)
  }

  /** The scan is a chain of TLVs: it starts at `index`, each TLV lies inside the frame and
      the next starts right after it, and it stops exactly when fewer than two bytes remain
      or the next declared length does not fit: too long for the guard, or one of the two
      lengths the guard lets through although the TLV runs one or two bytes past the end. */
  lemma {:induction false} ScanShape(bytes: seq<Byte>, index: nat)
    ensures var s := ScanFrom(bytes, index);
      && (|s.headers| == 0 ==> s.end == index)
      && (|s.headers| > 0 ==> s.headers[0].offset == index)
      && (|s.headers| > 0 ==> s.end == s.headers[|s.headers| - 1].offset + 2 + s.headers[|s.headers| - 1].len)
      && (forall k :: 0 <= k < |s.headers| ==>
            Fits(bytes, s.headers[k]) && s.headers[k] == HeaderAt(bytes, s.headers[k].offset))
      && (forall k :: 0 <= k < |s.headers| - 1 ==>
            s.headers[k + 1].offset == s.headers[k].offset + 2 + s.headers[k].len)
      && (s.stop == Exhausted <==> s.end + 1 >= |bytes|)
      && (s.stop == TooLong ==> s.end + 1 < |bytes| && HeaderAt(bytes, s.end).len > |bytes| - s.end)
      && (s.stop == Overrun ==>
            s.end + 1 < |bytes| && |bytes| - s.end - 1 <= HeaderAt(bytes, s.end).len <= |bytes| - s.end)
    decreases |bytes| - index
  {
    if index + 1 < |bytes| {
      var h := HeaderAt(bytes, index);
      if h.len <= |bytes| - index && index + 1 + h.len < |bytes| {
        var next := index + 2 + h.len;
        ScanShape(bytes, next);
        var s := ScanFrom(bytes, index);
        var rest := ScanFrom(bytes, next);
        assert s.headers == [h] + rest.headers;
        forall k | 0 < k < |s.headers|
          ensures s.headers[k] == rest.headers[k - 1]
        {
        }
      }
    }
  }

  /** A per-TLV value parser, as `ParsedValue`. */
  type ValueParser = (Fields, nat, nat, seq<Byte>) --> Result<Parsed, Panic>

  /** A value parser is defined on every whole TLV (type-length header included). */
  ghost predicate Total(parse: ValueParser) {
    forall f: Fields, typ: nat, len: nat, tlvBytes: seq<Byte> | |tlvBytes| == len + 2 ::
      parse.requires(f, typ, len, tlvBytes)
  }

  /** A value parser never reports a short frame: that panic belongs to the MAC header. */
  ghost predicate NeverShort(parse: ValueParser) {
    && Total(parse)
    && forall f: Fields, typ: nat, len: nat, tlvBytes: seq<Byte> | |tlvBytes| == len + 2 ::
      parse(f, typ, len, tlvBytes).Failure? ==> parse(f, typ, len, tlvBytes).error != FrameTooShort
  }

  /** A value parser records the TLV's type and length, and sets `valid` and the VLAN exactly
      for an accepted Port VLAN ID TLV. */
  ghost predicate Faithful(parse: ValueParser) {
    && Total(parse)
    && forall f: Fields, typ: nat, len: nat, tlvBytes: seq<Byte> | |tlvBytes| == len + 2 ::
      var r := parse(f, typ, len, tlvBytes);
      r.Success? ==>
        && r.value.tlv.typ == typ && r.value.tlv.len == len
        && r.value.fields.valid == (f.valid || IsAcceptedVlan(typ, len, tlvBytes))
        && r.value.fields.vlan
           == if IsAcceptedVlan(typ, len, tlvBytes) then Text.Decimal(PortVlanId(tlvBytes)) else f.vlan
  }

  /** What the walk relies on from its value parser. */
  ghost predicate Sound(parse: ValueParser) {
    NeverShort(parse) && Faithful(parse)
  }

  /** `parse_value` is defined on every whole TLV. */
  lemma ParsedValueTotal()
    ensures Total(ParsedValue)
  {
  }

  /** `parse_value` is such a parser. */
  lemma ParsedValueSound()
    ensures Sound(ParsedValue)
  {
  }

  /** The loop of `LldpPdu::new` from `index` on, with the record `p` built so far
      (`WalkBounds` states what it can come to). */
  function WalkFrom(bytes: seq<Byte>, index: nat, p: Pdu, parse: ValueParser): Walk<Pdu>
    requires Total(parse)
    decreases |bytes| - index, 0
  {
    if index + 1 < |bytes| then
      var h := HeaderAt(bytes, index);
      if h.len > |bytes| - index then Ended(p)
      else if !Fits(bytes, h) then Panicked(index, SliceOverrun)
      else
        match parse(p.fields, h.typ, h.len, TlvBytes(bytes, h))
        case Failure(e) => Panicked(index, e)
        case Success(v) => Resume(bytes, index + 2 + h.len, Pdu(v.fields, p.tlvs + [v.tlv]), parse)
    else Ended(p)
  }

  /** The loop picks up again at `index` after recording a TLV. The indirection makes the
      solver unfold `WalkFrom` by only one TLV at a time. */
  function Resume(bytes: seq<Byte>, index: nat, p: Pdu, parse: ValueParser): Walk<Pdu>
    requires Total(parse)
    decreases |bytes| - index, 1
  {
    WalkFrom(bytes, index, p, parse)
  }

  /** One TLV of the walk: a TLV that fits is parsed, and the walk panics there or goes on
      right after it with the TLV recorded. */
  lemma WalkOn(bytes: seq<Byte>, index: nat, p: Pdu, parse: ValueParser)
    requires Total(parse)
    requires index + 1 < |bytes| && Fits(bytes, HeaderAt(bytes, index))
    ensures var h := HeaderAt(bytes, index);
      WalkFrom(bytes, index, p, parse) == match parse(p.fields, h.typ, h.len, TlvBytes(bytes, h))
        case Failure(e) => Panicked(index, e)
        case Success(v) => WalkFrom(bytes, index + 2 + h.len, Pdu(v.fields, p.tlvs + [v.tlv]), parse)
  {
  }

  /** The walk ends where no header is left or a header claims more bytes than remain. */
  lemma WalkHalts(bytes: seq<Byte>, index: nat, p: Pdu, parse: ValueParser)
    requires Total(parse)
    requires index + 1 < |bytes| ==> HeaderAt(bytes, index).len > |bytes| - index
    ensures WalkFrom(bytes, index, p, parse) == Ended(p)
  {
  }

  /** A TLV that passes the length check but runs past the frame panics in the slice. */
  lemma WalkOverruns(bytes: seq<Byte>, index: nat, p: Pdu, parse: ValueParser)
    requires Total(parse)
    requires index + 1 < |bytes| && HeaderAt(bytes, index).len <= |bytes| - index
    requires !Fits(bytes, HeaderAt(bytes, index))
    ensures WalkFrom(bytes, index, p, parse) == Panicked(index, SliceOverrun)
  {
  }

  /** The loop never spins, and it panics only at or after where it starts and never for a
      short frame. */
  lemma {:induction false} WalkBounds(bytes: seq<Byte>, index: nat, p: Pdu, parse: ValueParser)
    requires NeverShort(parse)
    ensures var r := WalkFrom(bytes, index, p, parse);
      && !r.Spins?
      && (r.Panicked? ==> r.at >= index && r.reason != FrameTooShort)
    decreases |bytes| - index
  {
    if index + 1 < |bytes| && HeaderAt(bytes, index).len <= |bytes| - index {
      var h := HeaderAt(bytes, index);
      if Fits(bytes, h) {
        WalkOn(bytes, index, p, parse);
        var r := parse(p.fields, h.typ, h.len, TlvBytes(bytes, h));
        if r.Success? {
          var q := Pdu(r.value.fields, p.tlvs + [r.value.tlv]);
          WalkBounds(bytes, index + 2 + h.len, q, parse);
        } else {
          assert r.error != FrameTooShort;
        }
      } else {
        WalkOverruns(bytes, index, p, parse);
      }
    } else {
      WalkHalts(bytes, index, p, parse);
    }
  }

  /** `LldpPdu::new` on values. */
  function Decode(bytes: seq<Byte>): (r: Outcome<Pdu>)
    ensures !r.Diverges?
    ensures (r.Crash? && r.reason == FrameTooShort) <==> |bytes| < MAC_BYTES
    ensures r.Identity? ==> r.pdu.fields.valid
  {
    if |bytes| < MAC_BYTES then Crash(0, FrameTooShort)
    else
      ParsedValueSound();
      WalkBounds(bytes, TLV_START, Pdu(BLANK, []), ParsedValue);
      match WalkFrom(bytes, TLV_START, Pdu(BLANK, []), ParsedValue)
      case Ended(q) => if q.fields.valid then Identity(q) else NoIdentity
      case Panicked(at, e) => Crash(at, e)
  }

  // ------------------------------------------------- what the walk computes

  /** The header `h` opens a Port VLAN ID TLV that the decoder accepts. */
  predicate AcceptedAt(bytes: seq<Byte>, h: Header) {
    Fits(bytes, h) && IsAcceptedVlan(h.typ, h.len, TlvBytes(bytes, h))
  }

  /** Some header of `hs` opens an accepted Port VLAN ID TLV. */
  predicate AnyAccepted(bytes: seq<Byte>, hs: seq<Header>) {
    hs != [] && (AcceptedAt(bytes, hs[0]) || AnyAccepted(bytes, hs[1..]))
  }

  lemma {:induction false} AnyAcceptedIffSome(bytes: seq<Byte>, hs: seq<Header>)
    ensures AnyAccepted(bytes, hs) <==> exists k :: 0 <= k < |hs| && AcceptedAt(bytes, hs[k])
    decreases |hs|
  {
    if hs != [] {
      AnyAcceptedIffSome(bytes, hs[1..]);
      if exists k :: 0 <= k < |hs| && AcceptedAt(bytes, hs[k]) {
        var k :| 0 <= k < |hs| && AcceptedAt(bytes, hs[k]);
        if k > 0 {
          assert hs[1..][k - 1] == hs[k];
        }
      }
      if exists k :: 0 <= k < |hs| - 1 && AcceptedAt(bytes, hs[1..][k]) {
        var k :| 0 <= k < |hs| - 1 && AcceptedAt(bytes, hs[1..][k]);
        assert hs[k + 1] == hs[1..][k];
      }
    }
  }

  /** A walk that ends (no panic) went through every header of the scan, never met an
      overrunning TLV, and is valid exactly when it started valid or one of the headers
      is an accepted Port VLAN ID TLV. */
  lemma {:induction false} WalkValidity(bytes: seq<Byte>, index: nat, p: Pdu, parse: ValueParser)
    requires Faithful(parse)
    requires WalkFrom(bytes, index, p, parse).Ended?
    ensures ScanFrom(bytes, index).stop != Overrun
    ensures WalkFrom(bytes, index, p, parse).pdu.fields.valid ==
      (p.fields.valid || AnyAccepted(bytes, ScanFrom(bytes, index).headers))
    decreases |bytes| - index
  {
    if index + 1 < |bytes| && HeaderAt(bytes, index).len <= |bytes| - index {
      var next, p' := WalkStep(bytes, index, p, parse);
      ScanStep(bytes, index);
      WalkValidity(bytes, next, p', parse);
      assert ScanFrom(bytes, index).headers[1..] == ScanFrom(bytes, next).headers;
    }
  }

  /** The VLAN text of an accepted header. */
  function VlanText(bytes: seq<Byte>, h: Header): string
    requires AcceptedAt(bytes, h)
  {
    Text.Decimal(PortVlanId(TlvBytes(bytes, h)))
  }

  /** A TLV that fits is the first header of the scan, which goes on right after it. */
  lemma ScanStep(bytes: seq<Byte>, index: nat)
    requires index + 1 < |bytes| && Fits(bytes, HeaderAt(bytes, index))
    ensures var rest := ScanFrom(bytes, index + 2 + HeaderAt(bytes, index).len);
      ScanFrom(bytes, index) == Scan([HeaderAt(bytes, index)] + rest.headers, rest.end, rest.stop)
  {
  }

  /** One TLV of a walk that ends: it is the first header of the scan, and the walk goes on
      after it with one more TLV recorded and the validity and VLAN that TLV gives. */
  lemma WalkStep(bytes: seq<Byte>, index: nat, p: Pdu, parse: ValueParser) returns (next: nat, p': Pdu)
    requires Faithful(parse)
    requires WalkFrom(bytes, index, p, parse).Ended?
    requires index + 1 < |bytes| && HeaderAt(bytes, index).len <= |bytes| - index
    ensures var h := HeaderAt(bytes, index);
      && next == index + 2 + h.len && next <= |bytes|
      && WalkFrom(bytes, next, p', parse) == WalkFrom(bytes, index, p, parse)
      && |p'.tlvs| == |p.tlvs| + 1 && p'.tlvs[..|p.tlvs|] == p.tlvs
      && p'.tlvs[|p.tlvs|].typ == h.typ && p'.tlvs[|p.tlvs|].len == h.len
      && p'.fields.valid == (p.fields.valid || AcceptedAt(bytes, h))
      && p'.fields.vlan == (if AcceptedAt(bytes, h) then VlanText(bytes, h) else p.fields.vlan)
  {
    var h := HeaderAt(bytes, index);
    WalkOn(bytes, index, p, parse);
    var v := parse(p.fields, h.typ, h.len, TlvBytes(bytes, h)).value;
    next := index + 2 + h.len;
    p' := Pdu(v.fields, p.tlvs + [v.tlv]);
    assert p'.tlvs[..|p.tlvs|] == p.tlvs;
  }

  /** A walk that ends recorded one TLV per scanned header, with that header's type and
      length, after the TLVs it started with. */
  lemma {:induction false} WalkRecordsEveryHeader(bytes: seq<Byte>, index: nat, p: Pdu, parse: ValueParser)
    requires Faithful(parse)
    requires WalkFrom(bytes, index, p, parse).Ended?
    ensures var q := WalkFrom(bytes, index, p, parse).pdu; var hs := ScanFrom(bytes, index).headers;
      && |p.tlvs| <= |q.tlvs|
      && q.tlvs[..|p.tlvs|] == p.tlvs
      && Records(q.tlvs[|p.tlvs|..], hs)
    decreases |bytes| - index
  {
    if index + 1 < |bytes| && HeaderAt(bytes, index).len <= |bytes| - index {
      var h := HeaderAt(bytes, index);
      var next, p' := WalkStep(bytes, index, p, parse);
      ScanStep(bytes, index);
      var hs := ScanFrom(bytes, next).headers;
      assert ScanFrom(bytes, index).headers == [h] + hs;
      WalkRecordsEveryHeader(bytes, next, p', parse);
      var q := WalkFrom(bytes, index, p, parse).pdu;
      var n := |p.tlvs|;
      assert q.tlvs[..n] == q.tlvs[..n + 1][..n];
      assert q.tlvs[n..] == [q.tlvs[n]] + q.tlvs[n + 1..];
      RecordsCons(q.tlvs[n], q.tlvs[n + 1..], h, hs);
    } else {
      assert WalkFrom(bytes, index, p, parse) == Ended(p);
      assert ScanFrom(bytes, index).headers == [];
      assert p.tlvs[|p.tlvs|..] == [];
    }
  }

  /** `tlvs` holds one TLV per header of `hs`, in order, each with its header's type and length. */
  predicate Records(tlvs: seq<Tlv>, hs: seq<Header>) {
    |tlvs| == |hs| && forall k :: 0 <= k < |hs| ==> tlvs[k].typ == hs[k].typ && tlvs[k].len == hs[k].len
  }

  lemma RecordsCons(t: Tlv, tlvs: seq<Tlv>, h: Header, hs: seq<Header>)
    requires t.typ == h.typ && t.len == h.len && Records(tlvs, hs)
    ensures Records([t] + tlvs, [h] + hs)
  {
    forall k | 0 < k <= |hs| ensures ([t] + tlvs)[k] == tlvs[k - 1] && ([h] + hs)[k] == hs[k - 1] {
    }
  }

  /** What the TLV at header `h` does to the VLAN: an accepted Port VLAN ID TLV sets it to
      its decimal identifier, any other TLV leaves it. */
  function Mark(bytes: seq<Byte>, h: Header): Option<string> {
    if AcceptedAt(bytes, h) then Some(VlanText(bytes, h)) else None
  }

  /** The marks of the headers `hs`, in order. */
  function Marks(bytes: seq<Byte>, hs: seq<Header>): (ms: seq<Option<string>>)
    ensures |ms| == |hs|
    ensures forall k :: 0 <= k < |hs| ==> ms[k] == Mark(bytes, hs[k])
  {
    seq(|hs|, k requires 0 <= k < |hs| => Mark(bytes, hs[k]))
  }

  /** The value after the marks `ms`, starting from `vlan`: each set mark overwrites it. */
  function LastWins(ms: seq<Option<string>>, vlan: string): string
    decreases |ms|
  {
    if ms == [] then vlan else LastWins(ms[1..], if ms[0].Some? then ms[0].value else vlan)
  }

  /** Later marks overwrite earlier ones: the value is that of the last set mark, or the
      starting value when no mark is set. */
  lemma {:induction false} LastWinsIsLast(ms: seq<Option<string>>, vlan: string)
    ensures if exists k :: 0 <= k < |ms| && ms[k].Some? then
        exists k :: 0 <= k < |ms| && ms[k].Some?
          && (forall j :: k < j < |ms| ==> ms[j].None?)
          && LastWins(ms, vlan) == ms[k].value
      else LastWins(ms, vlan) == vlan
    decreases |ms|
  {
    if ms != [] {
      var rest := ms[1..];
      var vlan' := if ms[0].Some? then ms[0].value else vlan;
      LastWinsIsLast(rest, vlan');
      if exists k :: 0 <= k < |rest| && rest[k].Some? {
        var k :| 0 <= k < |rest| && rest[k].Some?
          && (forall j :: k < j < |rest| ==> rest[j].None?)
          && LastWins(rest, vlan') == rest[k].value;
        assert ms[k + 1] == rest[k];
        forall j | k + 1 < j < |ms| ensures ms[j].None? {
          assert ms[j] == rest[j - 1];
        }
      } else {
        forall j | 0 < j < |ms| ensures ms[j].None? {
          assert ms[j] == rest[j - 1];
        }
        if exists k :: 0 <= k < |ms| && ms[k].Some? {
          assert ms[0].Some?;
        }
      }
    }
  }

  /** The VLAN after the headers `hs`, starting from `vlan`: each accepted Port VLAN ID
      TLV overwrites it, the other TLVs leave it. */
  function VlanAfter(bytes: seq<Byte>, hs: seq<Header>, vlan: string): string {
    LastWins(Marks(bytes, hs), vlan)
  }

  /** The first header acts first: an accepted one sets the VLAN, and the rest go on from there. */
  lemma VlanAfterCons(bytes: seq<Byte>, h: Header, hs: seq<Header>, vlan: string)
    ensures VlanAfter(bytes, [h] + hs, vlan)
      == VlanAfter(bytes, hs, if AcceptedAt(bytes, h) then VlanText(bytes, h) else vlan)
  {
    var ms := Marks(bytes, [h] + hs);
    forall k | 0 <= k < |hs| ensures ms[1..][k] == Marks(bytes, hs)[k] {
      assert ([h] + hs)[k + 1] == hs[k];
    }
    assert ms[1..] == Marks(bytes, hs);
    assert ms[0] == Mark(bytes, h);
  }

  /** Later accepted Port VLAN ID TLVs overwrite earlier ones: `VlanAfter` is the VLAN of the
      last accepted header, or the starting VLAN when there is none. */
  lemma VlanAfterIsLastAccepted(bytes: seq<Byte>, hs: seq<Header>, vlan: string)
    ensures if exists k :: 0 <= k < |hs| && AcceptedAt(bytes, hs[k]) then
        exists k :: 0 <= k < |hs| && AcceptedAt(bytes, hs[k])
          && (forall j :: k < j < |hs| ==> !AcceptedAt(bytes, hs[j]))
          && VlanAfter(bytes, hs, vlan) == VlanText(bytes, hs[k])
      else VlanAfter(bytes, hs, vlan) == vlan
  {
    var ms := Marks(bytes, hs);
    LastWinsIsLast(ms, vlan);
    if exists k :: 0 <= k < |hs| && AcceptedAt(bytes, hs[k]) {
      var i :| 0 <= i < |hs| && AcceptedAt(bytes, hs[i]);
      assert ms[i].Some?;
      var k :| 0 <= k < |ms| && ms[k].Some?
        && (forall j :: k < j < |ms| ==> ms[j].None?)
        && LastWins(ms, vlan) == ms[k].value;
      assert AcceptedAt(bytes, hs[k]);
      forall j | k < j < |hs| ensures !AcceptedAt(bytes, hs[j]) {
        assert ms[j].None?;
      }
    } else {
      forall k | 0 <= k < |ms| ensures ms[k].None? {
        assert !AcceptedAt(bytes, hs[k]);
      }
    }
  }

  /** A walk that ends holds the VLAN its headers leave. */
  lemma {:induction false} WalkVlan(bytes: seq<Byte>, index: nat, p: Pdu, parse: ValueParser)
    requires Faithful(parse)
    requires WalkFrom(bytes, index, p, parse).Ended?
    ensures WalkFrom(bytes, index, p, parse).pdu.fields.vlan
      == VlanAfter(bytes, ScanFrom(bytes, index).headers, p.fields.vlan)
    decreases |bytes| - index
  {
    if index + 1 < |bytes| && HeaderAt(bytes, index).len <= |bytes| - index {
      var next, p' := WalkStep(bytes, index, p, parse);
      ScanStep(bytes, index);
      WalkVlan(bytes, next, p', parse);
      VlanAfterCons(bytes, HeaderAt(bytes, index), ScanFrom(bytes, next).headers, p.fields.vlan);
    }
  }

  /** An overrunning TLV is never survived: when the scan stops at one, the walk panics,
      either there or at an earlier TLV. */
  lemma {:induction false} OverrunPanics(bytes: seq<Byte>, index: nat, p: Pdu, parse: ValueParser)
    requires Total(parse)
    requires ScanFrom(bytes, index).stop == Overrun
    ensures WalkFrom(bytes, index, p, parse).Panicked?
    decreases |bytes| - index
  {
    var h := HeaderAt(bytes, index);
    if Fits(bytes, h) {
      ScanStep(bytes, index);
      WalkOn(bytes, index, p, parse);
      var r := parse(p.fields, h.typ, h.len, TlvBytes(bytes, h));
      if r.Success? {
        OverrunPanics(bytes, index + 2 + h.len, Pdu(r.value.fields, p.tlvs + [r.value.tlv]), parse);
      }
    }
  }


  /** An End-of-LLDPDU TLV is recorded and the walk goes on after it. */
  lemma EndOfPduDoesNotStop(bytes: seq<Byte>, index: nat, p: Pdu)
    requires index + 1 < |bytes|
    requires HeaderAt(bytes, index).typ == END_OF_LLDP_PDU
    requires index + 1 + HeaderAt(bytes, index).len < |bytes|
    ensures var len := HeaderAt(bytes, index).len;
      WalkFrom(bytes, index, p, ParsedValue)
        == WalkFrom(bytes, index + 2 + len, Pdu(p.fields, p.tlvs + [Tlv(END_OF_LLDP_PDU, len, END_OF_PDU)]), ParsedValue)
  {
    ParsedValueSound();
  }

  // ------------------------------------------------- the decode as a whole

  /** `LldpPdu::new` gives `Some` exactly when it does not panic and the frame holds an
      accepted Port VLAN ID TLV; it panics whenever the last TLV overruns the frame. */
  lemma DecodeIdentityIffAcceptedVlan(bytes: seq<Byte>)
    requires |bytes| >= MAC_BYTES
    ensures ScanFrom(bytes, TLV_START).stop == Overrun ==> Decode(bytes).Crash?
    ensures var hs := ScanFrom(bytes, TLV_START).headers;
      !Decode(bytes).Crash? ==>
        (Decode(bytes).Identity? <==> exists k :: 0 <= k < |hs| && AcceptedAt(bytes, hs[k]))
  {
    var p := Pdu(BLANK, []);
    ParsedValueSound();
    if ScanFrom(bytes, TLV_START).stop == Overrun {
      OverrunPanics(bytes, TLV_START, p, ParsedValue);
    }
    if WalkFrom(bytes, TLV_START, p, ParsedValue).Ended? {
      WalkValidity(bytes, TLV_START, p, ParsedValue);
      AnyAcceptedIffSome(bytes, ScanFrom(bytes, TLV_START).headers);
    }
  }

  /** An identity lists one TLV per TLV of the frame, in order, with its declared type and
      length, and its VLAN is that of the last accepted Port VLAN ID TLV. */
  lemma DecodeIdentity(bytes: seq<Byte>)
    requires Decode(bytes).Identity?
    ensures var q := Decode(bytes).pdu; var hs := ScanFrom(bytes, TLV_START).headers;
      && Records(q.tlvs, hs)
      && exists k :: 0 <= k < |hs| && AcceptedAt(bytes, hs[k])
           && (forall j :: k < j < |hs| ==> !AcceptedAt(bytes, hs[j]))
           && q.fields.vlan == VlanText(bytes, hs[k])
  {
    var p := Pdu(BLANK, []);
    var q := Decode(bytes).pdu;
    var hs := ScanFrom(bytes, TLV_START).headers;
    ParsedValueSound();
    WalkRecordsEveryHeader(bytes, TLV_START, p, ParsedValue);
    assert q.tlvs[0..] == q.tlvs;
    WalkValidity(bytes, TLV_START, p, ParsedValue);
    AnyAcceptedIffSome(bytes, hs);
    WalkVlan(bytes, TLV_START, p, ParsedValue);
    VlanAfterIsLastAccepted(bytes, hs, "");
  }

  // -------------------------------------------------------- the mutable PDU

  /** The decoded packet that `LldpPdu::new` builds in place. */
  class LldpPdu {
    const bytes: seq<Byte>
    var valid: bool
    var chassisId: string
    var portId: string
    var portDescription: string
    var systemDescription: string
    var vlan: string
    var tlvs: seq<Tlv>

    function View(): Pdu
      reads this
    {
      Pdu(Fields(valid, chassisId, portId, portDescription, systemDescription, vlan), tlvs)
    }

    constructor (bytes: seq<Byte>)
      ensures this.bytes == bytes && View() == Pdu(BLANK, [])
    {
      this.bytes := bytes;
      valid := false;
      chassisId := "";
      portId := "";
      portDescription := "";
      systemDescription := "";
      vlan := "";
      tlvs := [];
    }

    /** `parse_value`: reads one TLV into the fields and returns the TLV to record. */
    method ParseValue(typ: nat, len: nat, tlvBytes: seq<Byte>) returns (r: Result<Tlv, Panic>)
      requires |tlvBytes| == len + 2
      modifies this
      ensures match ParsedValue(old(View()).fields, typ, len, tlvBytes)
        case Failure(e) => r == Failure(e)
        case Success(v) => r == Success(v.tlv) && View() == Pdu(v.fields, old(tlvs))
    {
      if typ == END_OF_LLDP_PDU {
        r := Success(Tlv(typ, len, END_OF_PDU));
      } else if typ == CHASSIS_ID || typ == PORT_ID {
        if len == 0 {
          return Failure(ValueTooShort);
        }
        var value := Text.HexJoin(tlvBytes[3..], ":");
        if typ == CHASSIS_ID {
          chassisId := value;
        } else {
          portId := value;
        }
        r := Success(Tlv(typ, len, value));
      } else if typ == TIME_TO_LIVE {
        if len < 2 {
          return Failure(ValueTooShort);
        }
        r := Success(Tlv(typ, len, Text.Decimal(Be16(tlvBytes[2], tlvBytes[3]))));
      } else if IsTextType(typ) {
        var text := Utf8.Decode(tlvBytes[2..]);
        if text.None? {
          return Failure(InvalidUtf8);
        }
        var value := text.value;
        if typ == PORT_DESCRIPTION {
          value := Text.RemoveChars(value);
          portDescription := value;
        } else if typ == SYSTEM_NAME {
          systemDescription := value;
        }
        r := Success(Tlv(typ, len, value));
      } else if typ == SYSTEM_CAPABILITIES || typ == MANAGEMENT_ADDRESS {
        r := Success(Tlv(typ, len, Text.HexJoin(tlvBytes[2..], ", ")));
      } else if typ == VLAN_ID {
        if len < 3 {
          return Failure(ValueTooShort);
        }
        var oui := tlvBytes[2..5];
        assert oui == IEEE_802_1_OUI <==> HasIeeeOui(tlvBytes) by {
          assert oui[0] == tlvBytes[2] && oui[1] == tlvBytes[3] && oui[2] == tlvBytes[4];
        }
        if oui == IEEE_802_1_OUI && len == 6 {
          var value := Text.Decimal(Be16(tlvBytes[6], tlvBytes[7]));
          if |value| != 0 {
            valid := true;
            value := Text.RemoveChars(value);
          }
          vlan := value;
          r := Success(Tlv(typ, len, value));
        } else {
          r := Success(Tlv(typ, len, RESERVED));
        }
      } else {
        r := Success(Tlv(typ, len, RESERVED));
      }
    }

    /** Parses the whole TLV at `index` into the fields and records it, or reports the
        panic that parsing it raises (`parse_value` and the push after it): the walk panics
        there with the same reason, or goes on after the TLV from the new record. */
    method Record(index: nat, typ: nat, len: nat, tlvBytes: seq<Byte>) returns (panic: Option<Panic>)
      requires index + 1 < |bytes| && HeaderAt(bytes, index) == Header(index, typ, len)
      requires Fits(bytes, HeaderAt(bytes, index)) && tlvBytes == TlvBytes(bytes, HeaderAt(bytes, index))
      modifies this
      ensures Total(ParsedValue)
      ensures match panic
        case Some(e) => WalkFrom(bytes, index, old(View()), ParsedValue) == Panicked(index, e)
        case None =>
          && ParsedValue(old(View()).fields, typ, len, tlvBytes).Success?
          && View() == Pdu(ParsedValue(old(View()).fields, typ, len, tlvBytes).value.fields,
                           old(tlvs) + [ParsedValue(old(View()).fields, typ, len, tlvBytes).value.tlv])
          && WalkFrom(bytes, index + 2 + len, View(), ParsedValue) == WalkFrom(bytes, index, old(View()), ParsedValue)
    {
      ParsedValueTotal();
      ghost var before := View();
      ghost var parsed := ParsedValue(before.fields, typ, len, tlvBytes);
      WalkOn(bytes, index, before, ParsedValue);
      var tlv := ParseValue(typ, len, tlvBytes);
      if tlv.Failure? {
        assert parsed == Failure(tlv.error);
        return Some(tlv.error);
      }
      assert parsed.Success? && tlv.value == parsed.value.tlv;
      tlvs := tlvs + [tlv.value];
      panic := None;
    }

    /** One turn of the loop of `LldpPdu::new` at `index`: it stops at a header that claims
        more bytes than remain, panics on a TLV that overruns the frame or that the value
        parser rejects, and otherwise parses the TLV into the fields, pushes it and moves
        `2 + len` past it. Either way the walk from where it leaves off is the walk from `index`. */
    method Step(index: nat) returns (m: Move)
      requires index + 1 < |bytes|
      modifies this
      ensures Total(ParsedValue)
      ensures match m
        case Halt => View() == old(View()) && WalkFrom(bytes, index, View(), ParsedValue) == Ended(View())
        case Fault(e) => WalkFrom(bytes, index, old(View()), ParsedValue) == Panicked(index, e)
        case Advance(next) =>
          (var h := HeaderAt(bytes, index);
           && Fits(bytes, h)
           && next == index + 2 + h.len && next <= |bytes|
           && ParsedValue(old(View()).fields, h.typ, h.len, TlvBytes(bytes, h)).Success?
           && View() == Pdu(ParsedValue(old(View()).fields, h.typ, h.len, TlvBytes(bytes, h)).value.fields,
                            old(tlvs) + [ParsedValue(old(View()).fields, h.typ, h.len, TlvBytes(bytes, h)).value.tlv])
           && WalkFrom(bytes, next, View(), ParsedValue) == WalkFrom(bytes, index, old(View()), ParsedValue))
    {
      ParsedValueTotal();
      var h := ParseTypLen(bytes[index], bytes[index + 1]);
      assert HeaderAt(bytes, index) == Header(index, h.typ, h.len);
      if h.len > |bytes| - index {
        WalkHalts(bytes, index, View(), ParsedValue);
        return Halt;
      }
      if index + 1 + h.len >= |bytes| {
        WalkOverruns(bytes, index, View(), ParsedValue);
        return Fault(SliceOverrun);
      }
      var tlvBytes := bytes[index .. index + 2 + h.len];
      var panic := Record(index, h.typ, h.len, tlvBytes);
      if panic.Some? {
        return Fault(panic.value);
      }
      m := Advance(index + 2 + h.len);
    }

    /** `LldpPdu::new`: walks the TLVs from offset 14, advancing by `2 + len`. */
    static method New(bytes: seq<Byte>) returns (r: Outcome<LldpPdu>)
      ensures Observe(r) == Decode(bytes)
      ensures r.Identity? ==> fresh(r.pdu) && r.pdu.bytes == bytes
    {
      if |bytes| < MAC_BYTES {
        return Crash(0, FrameTooShort);
      }
      var pdu := new LldpPdu(bytes);
      var index := TLV_START;
      ParsedValueTotal();
      while index + 1 < |bytes|
        invariant fresh(pdu) && pdu.bytes == bytes
        invariant WalkFrom(bytes, index, pdu.View(), ParsedValue) == WalkFrom(bytes, TLV_START, Pdu(BLANK, []), ParsedValue)
        decreases |bytes| - index
      {
        var m := pdu.Step(index);
        if m.Halt? {
          break;
        }
        if m.Fault? {
          return Crash(index, m.reason);
        }
        index := m.next;
      }
      if index + 1 >= |bytes| {
        WalkHalts(bytes, index, pdu.View(), ParsedValue);
      }
      r := if pdu.valid then Identity(pdu) else NoIdentity;
    }
  }

  /** The value an `Outcome` of `LldpPdu::new` stands for. */
  function Observe(r: Outcome<LldpPdu>): Outcome<Pdu>
    reads if r.Identity? then {r.pdu} else {}
  {
    match r
    case Identity(pdu) => Identity(pdu.View())
    case NoIdentity => NoIdentity
    case Crash(at, e) => Crash(at, e)
    case Diverges(at) => Diverges(at)
  }
}
