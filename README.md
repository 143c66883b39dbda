# rport — a Dafny model of the discovery-frame decoders

rport listens on a wired network interface for the discovery frames a switch sends. It reads
the switch's name, the port it is plugged into and the port's VLANs from those frames. Then it
hands that identity to the Windows registry.

The listener runs two phases:

- The first phase waits for Foundry Discovery Protocol (FDP) frames. FDP is a vendor protocol
  with no public standard.
- The second phase waits for IEEE 802.1AB (LLDP) frames.

A frame reaches a decoder only when its destination address is that protocol's multicast
address. A decoder walks the TLVs (type, length, value) that follow the frame's fixed header.
It fills in a mutable record and answers `Some` only when the record is valid:

- for FDP, when a Device-ID TLV decoded;
- for LLDP, when a Port VLAN ID TLV was accepted.

On `Some`, the listener builds three entries (`Switch`, `Port` and `Vlan`) for persistence.

This project models:

- the LLDP decoder (`src/lldp.rs`);
- the FDP decoder and its display helpers (`src/fdp.rs`);
- the destination-address dispatch and the entry assembly of `src/main.rs`.

Every decoder is given twice:

- as a pure specification on values: a step function for one TLV, a header stream (`ScanFrom`),
  and a tail-recursive walk (`WalkFrom`) that gives the `Decode` outcome;
- as the imperative class the source has (`LldpPdu`, `FdpPdu`): its fields, a `while` loop in
  `New`, and a method that updates the fields for one TLV.

The loop is proved to produce exactly the specified outcome.

An outcome is one of four things:

- an identity;
- no identity;
- a crash: the panic the Rust code would raise, at the offset of the offending TLV;
- divergence: the FDP loop that never advances.

The modelled panics are slice or index overruns and `unwrap` on invalid UTF-8.

Files:

- `common.dfy`: option and result types, octets and big-endian 16-bit words, and the outcome
  types.
- `text.dfy`: decimal and hexadecimal renderings, joining and splitting, and the letter
  stripping of `remove_chars`.
- `utf8.dfy`: a concrete UTF-8 decoder and encoder, following the table in section 3 of
  RFC 3629, with round-trip proofs.
- `lldp.dfy`: the LLDP decoder.
- `fdp.dfy`: the FDP decoder and its displays.
- `listener.dfy`: the two listen phases and the entry assembly.

## Model

| member | source | states |
|---|---|---|
| Bytes.Be16 | src/fdp.rs:43-44 | a big-endian 16-bit word built from two octets is below 65536 |
| Text.Decimal | src/lldp.rs:205 | the decimal rendering of a number is never empty |
| Text.DecimalDigits | src/lldp.rs:205 | the decimal rendering is all digits; it starts with 0 only for zero, and has several digits only for numbers of ten or more |
| Text.DecimalRoundTrip | src/fdp.rs:83-85 | reading a decimal rendering back gives the number rendered (`to_string` is invertible) |
| Text.DecimalInjective | src/fdp.rs:93-94 | distinct numbers render to distinct decimal strings |
| Text.Letterless | src/lldp.rs:222-230 | the stripped string is no longer than the input |
| Text.LetterlessLetterFree | src/lldp.rs:222-230 | the stripped string holds no alphabetic character |
| Text.RemoveChars | src/lldp.rs:222-230 | the loop of `remove_chars` (identical at src/fdp.rs:154-162) yields exactly `Letterless` of its input |
| Text.LetterlessAppend | src/lldp.rs:224-228 | stripping distributes over concatenation, so the kept characters stay in input order |
| Text.LetterlessKeepsLetterFree | src/lldp.rs:224-228 | a string is left unchanged by stripping if and only if it has no alphabetic character |
| Text.LetterlessDropsLetters | src/lldp.rs:224-228 | a string made only of letters strips to the empty string |
| Text.IsAlphabetic | src/lldp.rs:225 | the letters `remove_chars` drops; ASCII letters only (see "## Left out"), and `LetterlessDropsLetters`/`LetterlessKeepsLetterFree` state that exactly these are removed |
| Text.LetterlessIdempotent | src/lldp.rs:176 | stripping twice is the same as stripping once |
| Text.LetterlessOfDecimal | src/lldp.rs:208-211 | stripping a decimal rendering changes nothing, so the VLAN text is unaffected by `remove_chars` |
| Text.Split | src/fdp.rs:62-70 | splitting always gives at least one piece |
| Text.Join | src/fdp.rs:62-70 | the pieces with the separator between consecutive ones, as the Net loop builds the address; `Split` is its inverse (`SplitJoin`) |
| Text.SplitNoSeparator | src/fdp.rs:62-70 | a string without the separator splits into itself alone |
| Text.SplitAfterSeparator | src/fdp.rs:62-70 | appending a separator and a separator-free piece appends exactly that piece to the split |
| Text.SplitJoin | src/fdp.rs:62-70 | joining separator-free pieces and splitting again gives the pieces back |
| Text.Decimals | src/fdp.rs:63-70 | the per-octet pieces the Net loop joins; what they mean is stated by `DottedDecimalRoundTrip`: each piece reads back as its octet |
| Text.DottedDecimalRoundTrip | src/fdp.rs:60-72 | a dotted-decimal address splits back at the dots into one piece per octet, each reading as that octet |
| Text.HexByte | src/lldp.rs:154 | an octet renders as two hexadecimal digits whose value is the octet |
| Text.HexJoin | src/lldp.rs:154-157 | the debug list of the octets in upper-case hex with its brackets removed and `, ` replaced by the separator; `HexColonRoundTrip` gives the octets back from the colon form |
| Text.HexColonRoundTrip | src/lldp.rs:153-167 | the colon-joined hex rendering splits into one piece per octet, each two hex digits whose value is that octet |
| Utf8.DecodeFirst | src/lldp.rs:175 | a decoded character consumes between one and four bytes, never past the input |
| Utf8.EncodeChar | src/lldp.rs:175 | every character encodes in one to four bytes |
| Utf8.DecodeFirstOfEncoding | src/lldp.rs:175 | decoding the front of a character's encoding gives that character and its encoded width |
| Utf8.DecodeTwoOfEncoding | src/lldp.rs:175 | a character from U+0080 to U+07FF decodes back from its two-byte encoding |
| Utf8.DecodeThreeOfEncoding | src/lldp.rs:175 | a character from U+0800 to U+FFFF decodes back from its three-byte encoding |
| Utf8.DecodeFourOfEncoding | src/lldp.rs:175 | a character from U+10000 upward decodes back from its four-byte encoding |
| Utf8.EncodingOfDecodeFirst | src/lldp.rs:175 | the bytes a decoded character consumed are exactly its encoding |
| Utf8.Decode | src/lldp.rs:175 | `from_utf8`: the string that well-formed UTF-8 (section 4 of RFC 3629) encodes, `None` when it is malformed, never longer than its bytes; `Encode` is its inverse (`DecodeEncode`, `EncodeDecode`) |
| Utf8.DecodeEncode | src/lldp.rs:181 | every string's UTF-8 encoding decodes back to the string |
| Utf8.EncodeDecode | src/fdp.rs:54 | bytes that decode are exactly the encoding of the decoded string |
| Lldp.TypeName | src/lldp.rs:30-44 | `get_typ` gives "Reserved or Custom TLV" exactly for the types other than 0-8 and 127 |
| Lldp.TypeNamesDistinct | src/lldp.rs:30-44 | the named types have pairwise distinct names |
| Lldp.ParseTypLen | src/lldp.rs:131-140 | the header splits into a type below 128 and a length below 512 |
| Lldp.ParseTypLenWord | src/lldp.rs:131-140 | the type is the word's top 7 bits and the length its low 9 bits: type*512 + length is the big-endian word |
| Lldp.TypLenUnique | src/lldp.rs:131-140 | any 7-bit type and 9-bit length that make up the header word are the ones `parse_typ_len` returns |
| Lldp.ParsedValue | src/lldp.rs:143-220 | `parse_value` panics exactly on an empty Chassis-ID or Port-ID, a TTL shorter than 2, an organizationally specific TLV shorter than 3, or a text value that is not UTF-8; otherwise it records the TLV with its type and length, sets `valid` only for an accepted Port VLAN ID TLV, and then replaces `vlan` with the decimal of the big-endian value bytes 4-5 |
| Lldp.ParsedValueFields | src/lldp.rs:149-218 | per type: the chassis and port ids are the hex of the value after the subtype, the port description is the text stripped of letters, the system name is stored as received, End of PDU is recorded as "End of PDU", unknown types and rejected type-127 TLVs as "Reserved or Custom TLV"; no other field changes |
| Lldp.IdentifierRoundTrip | src/lldp.rs:153-168 | the stored Chassis-ID/Port-ID splits at ':' into one two-digit hex piece per value byte after the subtype, giving those bytes back; a TLV holding only the subtype stores the empty string |
| Lldp.SystemNameRoundTrip | src/lldp.rs:180-184 | the stored system name is exactly the value: its UTF-8 encoding is the value bytes |
| Lldp.PortDescriptionLetterFree | src/lldp.rs:174-179 | the stored port description holds no letter and is the decoded value with its letters removed |
| Lldp.VlanRoundTrip | src/lldp.rs:200-213 | an accepted Port VLAN ID TLV sets `valid`, and its stored VLAN reads back as the 16-bit Port VLAN ID |
| Lldp.TlvBytes | src/lldp.rs:90 | the slice handed to `parse_value` is the whole TLV, header included (length + 2 bytes) |
| Lldp.HeaderAt | src/lldp.rs:84-85 | the header at the cursor: a 7-bit type and a 9-bit length that together make up the big-endian header word |
| Lldp.ScanFrom | src/lldp.rs:81-97 | the offsets the loop visits and why it stops; `ScanShape` states the chain of TLVs and the three stop conditions |
| Lldp.WalkFrom | src/lldp.rs:81-97 | the outcome of the loop from a cursor on; `WalkBounds` states it never spins and panics only at or after its start, and `WalkStep`/`WalkOn` give its one-TLV equation |
| Lldp.ScanShape | src/lldp.rs:81-97 | the walk starts at offset 14; each header it passes fits in the frame and the next begins exactly 2 + length later; it stops when fewer than 2 bytes remain, when the length exceeds the bytes left (the guard), or when the length passes the guard but the slice overruns |
| Lldp.ParsedValueTotal | src/lldp.rs:144-220 | `parse_value` is defined on every whole TLV, header included |
| Lldp.ParsedValueSound | src/lldp.rs:144-220 | `parse_value` never reports a short frame, records the TLV's type and length, and sets `valid` and `vlan` exactly for an accepted Port VLAN ID TLV; the walk lemmas below hold for every value parser with these properties |
| Lldp.WalkOn | src/lldp.rs:83-93 | a TLV that fits is handed whole to the value parser; the walk panics there when the parser fails, and otherwise goes on 2 + length further with the TLV recorded |
| Lldp.WalkHalts | src/lldp.rs:83-88 | the loop ends, with the record as it is, where fewer than 2 bytes remain or the declared length exceeds the bytes left |
| Lldp.WalkOverruns | src/lldp.rs:86-90 | a length that passes the guard but runs past the frame panics in the slice, at that TLV |
| Lldp.WalkBounds | src/lldp.rs:81-97 | the LLDP loop never spins, and it panics only at or after its starting offset and never for a short frame |
| Lldp.Decode | src/lldp.rs:64-104 | `new` crashes for being short exactly when the frame is shorter than the two MAC addresses (12 bytes), never loops forever, and returns an identity only when `valid` |
| Lldp.WalkStep | src/lldp.rs:83-93 | one pass of the loop body records exactly one TLV with the declared type and length, advances to 2 + length further on, and keeps or sets `valid` and `vlan` as `parse_value` says |
| Lldp.ScanStep | src/lldp.rs:90-93 | a TLV that fits is the first header of the scan, and the scan goes on 2 + length further |
| Lldp.AnyAcceptedIffSome | src/lldp.rs:203-209 | the fold over the headers is true exactly when some header is an accepted Port VLAN ID TLV |
| Lldp.WalkValidity | src/lldp.rs:99-103 | a walk that ends did not stop on an overrun, and `valid` holds exactly when it held before or some passed header is an accepted Port VLAN ID TLV |
| Lldp.WalkRecordsEveryHeader | src/lldp.rs:92 | a walk that ends has recorded one TLV per header passed, in order, with the same type and length |
| Lldp.RecordsCons | src/lldp.rs:92 | recording one more TLV for one more header keeps the records aligned with the headers |
| Lldp.LastWinsIsLast | src/lldp.rs:212 | after a run of overwrites, the value is that of the last one, or the starting value when there is none |
| Lldp.VlanAfterCons | src/lldp.rs:212 | the first header acts first: an accepted Port VLAN ID TLV sets the VLAN, and the later headers go on from there |
| Lldp.VlanAfterIsLastAccepted | src/lldp.rs:212 | the VLAN after a run of headers is the one from the last accepted Port VLAN ID TLV, or the earlier VLAN when none is accepted |
| Lldp.WalkVlan | src/lldp.rs:212 | the VLAN a finished walk holds is the fold over its headers: later accepted TLVs overwrite earlier ones |
| Lldp.OverrunPanics | src/lldp.rs:86-90 | when the length passes the guard but overruns the frame (the two lengths the guard misses), the slice panics |
| Lldp.EndOfPduDoesNotStop | src/lldp.rs:149-152 | an End-of-LLDPDU TLV is recorded as "End of PDU" and the walk continues 2 + length further on |
| Lldp.DecodeIdentityIffAcceptedVlan | src/lldp.rs:99-103 | a frame with both MAC addresses crashes when the scan overruns; otherwise `new` returns `Some` if and only if some TLV is an accepted Port VLAN ID TLV |
| Lldp.DecodeIdentity | src/lldp.rs:81-103 | a decoded identity records one TLV per header, and its VLAN is the decimal Port VLAN ID of the last accepted Port VLAN ID TLV |
| Lldp.LldpPdu.constructor | src/lldp.rs:67-78 | a fresh PDU has blank fields, `valid` false and no TLVs |
| Lldp.LldpPdu.ParseValue | src/lldp.rs:143-220 | the in-place update of the PDU's fields is exactly `ParsedValue` on the old fields: it panics in the same cases, and otherwise returns the TLV and writes the new fields |
| Lldp.LldpPdu.Record | src/lldp.rs:90-92 | on success the new record is the fields `ParsedValue` gives with exactly that one TLV pushed, and the walk after the TLV from it equals the walk from the TLV; on failure the walk panics there with the same reason |
| Lldp.LldpPdu.Step | src/lldp.rs:83-93 | one pass of the loop body: it stops at a length beyond the bytes left with the record unchanged, or panics where the walk panics, or moves exactly `2 + len` on with the parsed fields and the TLV pushed, to where the walk goes on |
| Lldp.LldpPdu.New | src/lldp.rs:64-104 | the loop over the frame gives exactly the `Decode` outcome, with a fresh PDU holding the frame on `Some` |
| Fdp.IpBytes | src/fdp.rs:63 | the Net TLV address is always four bytes long: the last four of the TLV span |
| Fdp.HeaderAt | src/fdp.rs:43-44 | the header at the cursor: a 16-bit type and a 16-bit length, each read big-endian (`Be16Octets` gives the octets back) |
| Fdp.ScanFrom | src/fdp.rs:39-48 | the offsets the loop visits and why it stops; `ScanShape` states the chain of TLVs and the four stop conditions |
| Fdp.Step | src/fdp.rs:52-97 | one TLV panics exactly for a Device-ID or Interface shorter than 4, a Tag-Info shorter than 13, or a VLAN whose value bytes lie past the frame; otherwise `valid` is set exactly by a Device-ID whose value decodes |
| Fdp.StepFields | src/fdp.rs:53-96 | per type: Device-ID sets the name when it decodes; Net sets the dotted-decimal IP of the TLV's last four bytes; Interface sets the letter-free port when it decodes; VLAN sets the data VLAN only when it is unset and nonzero; Tag-Info overwrites both VLANs; Capabilities, Version, Platform and unknown types change nothing |
| Fdp.VlanKeepsDataVlan | src/fdp.rs:82-87 | a VLAN TLV never replaces a data VLAN already set |
| Fdp.ZeroLengthStepIdempotent | src/fdp.rs:100 | passing over a zero-length TLV a second time changes nothing, so the loop that never advances repeats the same state |
| Fdp.SwitchNameRoundTrip | src/fdp.rs:53-59 | a decoding Device-ID stores the name whose UTF-8 encoding is exactly its value, and sets `valid` |
| Fdp.SwitchIpRoundTrip | src/fdp.rs:60-72 | the stored IP splits at the dots into four decimal pieces, each reading as one of the TLV's last four bytes |
| Fdp.ScanShape | src/fdp.rs:39-48 | the walk starts at offset 26; each header passed fits in the frame and the next begins `l` later; it stops when fewer than 2 bytes remain, when the header's length bytes lie past the frame, when `index + l` exceeds the frame, or at a zero-length TLV |
| Fdp.WalkFrom | src/fdp.rs:39-104 | the FDP loop panics only at or after its starting offset, and only on a header, value or read overrun; it spins only at or after its start |
| Fdp.Decode | src/fdp.rs:25-111 | `new` returns an identity only when `valid`, and crashes only on a header, value or read overrun |
| Fdp.WalkStep | src/fdp.rs:41-100 | one pass of the loop over a TLV of non-zero length applies `Step` to the fields and advances by exactly `l` |
| Fdp.AnyDeviceIdIffSome | src/fdp.rs:53-58 | the fold over the headers is true exactly when some header is a Device-ID whose value decodes |
| Fdp.WalkValidity | src/fdp.rs:106-110 | a walk that ends stopped because the frame ran out or a TLV was too long, and `valid` holds exactly when it held before or some passed TLV is a decoding Device-ID |
| Fdp.WalkStops | src/fdp.rs:41-47 | a scan that stops at a zero-length TLV or an unreadable header never ends normally; a spinning walk spins at the zero-length TLV where the scan stopped |
| Fdp.DecodeIdentityIffDeviceId | src/fdp.rs:106-110 | when `new` returns, it returns `Some` if and only if the frame holds a Device-ID TLV whose name is valid UTF-8 |
| Fdp.DecodeDivergesAtZeroLength | src/fdp.rs:41-48 | `new` loops forever only at a readable zero-length TLV where the scan stopped; a scan stopped by a zero length or an unreadable header never yields a result (guard too weak, or no advance) |
| Fdp.SwitchDisplay | src/fdp.rs:113-125 | `switch()` is "name (ip)" when both are set, the name alone without an IP, "(ip)" without a name, and empty exactly when neither is set |
| Fdp.VlanDisplay | src/fdp.rs:129-141 | `vlan()` is empty exactly when neither VLAN is set |
| Fdp.VlanDisplaySplits | src/fdp.rs:129-141 | for comma-free VLANs, `vlan()` splits at the comma into "d,v", "d" or "v" as they are set |
| Fdp.DecimalHasNoComma | src/fdp.rs:85 | a decimal VLAN never contains a comma |
| Fdp.WalkKeepsVlansCommaFree | src/fdp.rs:82-95 | the walk keeps both VLAN fields comma-free |
| Fdp.DecodeVlanDisplaySplits | src/fdp.rs:129-141 | for a decoded identity, the VLAN display splits at the comma into exactly the VLANs that are set, data first |
| Fdp.DottedDecimal | src/fdp.rs:62-70 | the IP-building loop yields the decimal octets joined by single dots |
| Fdp.FdpPdu.constructor | src/fdp.rs:28-36 | a fresh PDU has blank fields and `valid` false |
| Fdp.FdpPdu.ReadTlv | src/fdp.rs:52-97 | the in-place update of the PDU for one TLV is exactly `Step` on the old fields: it panics in the same cases and otherwise writes the new fields |
| Fdp.FdpPdu.New | src/fdp.rs:25-111 | the loop over the frame gives exactly the `Decode` outcome, with a fresh PDU holding the frame on `Some` |
| Fdp.FdpPdu.Switch | src/fdp.rs:113-125 | the string built is the switch display of the current name and IP |
| Fdp.FdpPdu.Vlan | src/fdp.rs:129-141 | the string built is the VLAN display of the current data and voice VLANs |
| Listener.FdpEntries | src/main.rs:55-58 | the three entries `handle_fdp` persists: Switch is the switch display of name and address, Port the port name, Vlan the VLAN display |
| Listener.LldpEntries | src/main.rs:75-78 | the LLDP entries are, in order, Switch = system name, Port = port description, Vlan = VLAN |
| Listener.FdpHandling | src/main.rs:52-70 | entries are produced if and only if the FDP decoder returns `Some`, and they are built from that identity |
| Listener.LldpHandling | src/main.rs:72-90 | entries are produced if and only if the LLDP decoder returns `Some`, and they are built from that identity; LLDP handling never hangs |
| Listener.FirstPhase | src/main.rs:26-36 | a frame reaches the FDP handler if and only if it is an Ethernet frame sent to 01-E0-52-CC-CC-CC; every other frame is ignored |
| Listener.SecondPhase | src/main.rs:39-49 | a frame reaches the LLDP handler if and only if it is an Ethernet frame sent to 01-80-C2-00-00-0E, and such a frame never panics for being too short |
| Listener.PhasesDisjoint | src/main.rs:30-43 | no frame is handled in both phases |
| Listener.LldpVlanEntry | src/main.rs:78 | the persisted LLDP Vlan entry is the Port VLAN ID of the frame's last accepted Port VLAN ID TLV |
| Listener.FdpVlanEntry | src/main.rs:58 | the persisted FDP Vlan entry splits at its comma into the VLANs that are set |
| Listener.HandleFdp | src/main.rs:52-70 | the entries pushed by `handle_fdp` are exactly `FdpHandling` of the frame |
| Listener.HandleLldp | src/main.rs:72-90 | the entries pushed by `handle_lldp` are exactly `LldpHandling` of the frame |
| Listener.OnFirstPhaseFrame | src/main.rs:26-36 | the first phase's callback does exactly `FirstPhase` |
| Listener.OnSecondPhaseFrame | src/main.rs:39-49 | the second phase's callback does exactly `SecondPhase` |

## Left out

- Fdp.Decode: a zero-length TLV that does not panic makes the source loop forever. The model
  applies the TLV once and reports `Diverges` at its offset. `ZeroLengthStepIdempotent` shows
  that further passes change nothing.
- Text.IsAlphabetic: covers ASCII letters only. Rust's `char::is_alphabetic` also accepts every
  other Unicode letter. So for non-ASCII text, `remove_chars` in the model keeps letters the
  source would drop.
- Lldp.ParseTypLen: the split is done arithmetically (division and remainder of the header
  octets). The `BinaryString` text round trip in the source is not modelled.
- The packet view in the pnet library is not part of this model. It is assumed to accept
  exactly the frames of at least 14 bytes (two addresses and the EtherType).
- Interface enumeration, the capture channel and its timeouts are I/O and time: `src/nic.rs`
  and `listen_wired`. Frames are parameters of the model instead.
- Registry persistence (`src/reg.rs`, `write_hklm`, `print_hklm`) is a foreign call. The model
  stops at the entries handed to it.
- `std::process::exit` after persistence is not modelled, and neither are the exit codes in
  `src/exit_codes.rs`. Those are constants only.
- `print`, `print_tlvs` and the `destination_mac`/`source_mac` debug strings are diagnostics.
  Only the bounds check of the MAC slices is kept, as the short-frame crash.
- The rendering of a type-7 or type-8 TLV is not given a property of its own. That is the
  `{:02X?}` debug list with its brackets removed, modelled as hex joined by ", ".
- Machine-width overflow of `usize` index arithmetic is not modelled. Integers are unbounded;
  a frame can never be long enough to reach the limit.
- The panic message and the unwinding are reduced to a reason and the offset of the TLV that
  raised it.
