# pingoc wire codecs in Dafny

This project models the two wire-format codecs of `pingoc`, a small ping and DNS lookup tool, and proves properties of them.

- **The DNS message codec** (`src/dns/`). It implements the message format of section 4.1 of RFC 1035:
  - a fixed 512-byte `PacketBuffer` with a cursor;
  - big-endian reads and writes of 8- to 128-bit values;
  - domain names, with labels of at most 63 bytes and compression pointers limited to five jumps;
  - the 12-byte header with its packed flag word;
  - the type and class code tables;
  - questions and resource records;
  - whole messages, plus the query helpers that pick delegations, glue addresses and answers.
- **The ICMP echo codec** (`src/icmp/`). It uses the message layouts of RFC 792:
  - a growable `PacketBuffer` that overwrites in place or appends;
  - the message type and content conversions;
  - the packet writer that back-patches a checksum at offset 2;
  - the reader.

The model follows the form of the source:

- **Buffers are classes.** The two `PacketBuffer`s are classes whose fields the methods update: an `array` of 512 bytes for DNS, a `seq` for ICMP. The codecs' `read` and `write` take the buffer object and change it through its methods.
- **DNS methods are tied to functions.** Each DNS buffer method, and each `read`/`write` of the header, question, record and message, is proved equal to a function in module `DnsWire` or beside its codec. That function maps the bytes and the cursor to the result and the new bytes and cursor, on error paths too. The round-trip and error properties are lemmas about these functions.
- **ICMP methods state their effect directly.** Each ICMP method states its new buffer through `Put`, which describes an overwrite-or-append write. `read` is stated through `Decode`.
- **Pure code stays pure.** Code conversions, flag packing, the checksum and the query helpers are functions.

Findings the proofs expose about the code as written:

- **NS, CNAME and PTR records do not read back.** `write` gives them an RDLENGTH followed by the host's raw bytes, but `read` decodes a name there (`DnsRecordProofs.HostNotReadBack`).
- **SOA records do not read back.** `write` gives them no RDLENGTH at all, so `read` starts decoding two bytes late (`DnsRecordProofs.SoaNotReadBack`).
- **Some types and classes change on the way back.** `UNKNOWN` of a known type code reads back as the named type (`DnsQuestion.UnknownKnownTypeReadsAsNamed`). The class `UNASSIGNED` reads back as `ReservedPrivate` (`DnsQuery.ClassRoundTrip`).
- **Out-of-range flag fields spill.** An opcode of 16 spills into the QR bit (`DnsHeader.OpcodeSpill`).
- **The ICMP checksum is not the Internet checksum.** It is the complement of the low 16 bits of `(sum & 0xFFFFF) * (sum >> 16)`, where `sum` is the 32-bit wrapping sum of the big-endian 16-bit words. It is therefore 0xFFFF whenever the words sum to less than 65536. That includes every echo request whose identifier and sequence number add up to less than 0xF800. The Checksum field of the Echo and Echo Reply message format of RFC 792 asks for the one's-complement checksum of RFC 1071 instead (`IcmpPacket.ChecksumNotInternet`, `IcmpPacket.EchoChecksum`).

The model follows the code in each of these cases: the message model uses `write` as written. For the two records and the checksum, a corrected definition is proved beside it (see "## Findings").

## Model

| member | source | states |
|---|---|---|
| Bytes.DecBe | src/dns/buffer.rs:181-202 | big-endian decoding of a value's bytes gives the value back, at every width |
| Bytes.BeDec | src/dns/buffer.rs:83-100 | every byte pattern of a width is the big-endian layout of the value read from it |
| DnsWire.ReadWord | src/dns/buffer.rs:83-100 | a read of level k (u8 to u128) yields a value below 2^(8·width) |
| DnsWire.NameIteration | src/dns/buffer.rs:122-161 | each pass of the name-decoding loop either uses up a jump or moves past at least one byte, so the loop ends |
| DnsWireProofs.ReadWordEffect | src/dns/buffer.rs:76-100 | a read decodes the next width bytes big-endian and moves past them, or fails with EndOfBuffer having consumed the rest |
| DnsWireProofs.ReadWordFails | src/dns/buffer.rs:76-100 | with fewer than width bytes left, the read fails with EndOfBuffer and the cursor at 512 |
| DnsWireProofs.ReadWordMoves | src/dns/buffer.rs:76-100 | reads never change the bytes, and a successful read advances the cursor by exactly the width |
| DnsWireProofs.WriteBytesEffect | src/dns/buffer.rs:205-210 | write_bytes splices the bytes in at the cursor; past the end it writes the prefix that fits and fails with EndOfBuffer at 512 |
| DnsWireProofs.WriteBytesAppend | src/dns/buffer.rs:205-210 | writing a + c is writing a and then, if that succeeded, writing c |
| DnsWireProofs.WriteWordBytes | src/dns/buffer.rs:181-202 | write_u16 to write_u128 write the value's big-endian bytes, high half first |
| DnsWireProofs.WordRoundTrip | src/dns/buffer.rs:181-202 | where the bytes fit, a value written at p is read back from p as the same value, and both cursors end at p + width |
| DnsWireProofs.ReadBytesAt | src/dns/buffer.rs:103-110 | read_bytes returns the bytes laid out at the cursor and moves past them |
| DnsBuffer.PacketBuffer.constructor | src/dns/buffer.rs:43-48 | a new buffer is 512 zero bytes with the cursor at 0 |
| DnsBuffer.PacketBuffer.Seek | src/dns/buffer.rs:51-57 | succeeds exactly when p < 512 and then moves the cursor to p; otherwise PositionOutOfBounds(p) with the cursor unchanged |
| DnsBuffer.PacketBuffer.Get | src/dns/buffer.rs:60-65 | the byte at p when p < 512, otherwise EndOfBuffer; nothing changes |
| DnsBuffer.PacketBuffer.GetBytes | src/dns/buffer.rs:68-73 | bytes p..p+len when they are within 512, otherwise EndOfBuffer; nothing changes |
| DnsBuffer.PacketBuffer.Read | src/dns/buffer.rs:76-80 | result and new state are those of the read function |
| DnsBuffer.PacketBuffer.ReadU16 | src/dns/buffer.rs:83-85 | result and new state are those of a level-1 read (two bytes, high first) |
| DnsBuffer.PacketBuffer.ReadU32 | src/dns/buffer.rs:88-90 | result and new state are those of a level-2 read |
| DnsBuffer.PacketBuffer.ReadU64 | src/dns/buffer.rs:93-95 | result and new state are those of a level-3 read |
| DnsBuffer.PacketBuffer.ReadU128 | src/dns/buffer.rs:98-100 | result and new state are those of a level-4 read |
| DnsBuffer.PacketBuffer.ReadBytes | src/dns/buffer.rs:103-110 | buffer[pos..pos+len] with the cursor advanced by len, or EndOfBuffer with the cursor unchanged |
| DnsBuffer.PacketBuffer.NameIteration | src/dns/buffer.rs:122-161 | one pass of the decoding loop does what the loop-step function says, the cursor moving only on the first jump |
| DnsBuffer.PacketBuffer.ReadQueryName | src/dns/buffer.rs:115-168 | the loop's result and final cursor are those of the name-decoding function |
| DnsBuffer.PacketBuffer.Write | src/dns/buffer.rs:171-178 | at pos < 512 only buffer[pos] changes, to v, and the cursor advances; otherwise EndOfBuffer and nothing changes |
| DnsBuffer.PacketBuffer.WriteU16 | src/dns/buffer.rs:181-184 | result and new state are those of a level-1 write |
| DnsBuffer.PacketBuffer.WriteU32 | src/dns/buffer.rs:187-190 | result and new state are those of a level-2 write |
| DnsBuffer.PacketBuffer.WriteU64 | src/dns/buffer.rs:193-196 | result and new state are those of a level-3 write |
| DnsBuffer.PacketBuffer.WriteU128 | src/dns/buffer.rs:199-202 | result and new state are those of a level-4 write |
| DnsBuffer.PacketBuffer.WriteBytes | src/dns/buffer.rs:205-210 | the loop writes the bytes one at a time, stopping at the first failure |
| DnsBuffer.PacketBuffer.WriteQueryName | src/dns/buffer.rs:213-227 | the label loops' result and new state are those of the name-encoding function |
| DnsNameProofs.JoinSplit | src/dns/buffer.rs:215 | joining the '.'-separated labels of a name with '.' gives the name back |
| DnsNameProofs.WriteQueryNameBytes | src/dns/buffer.rs:213-227 | a name whose labels are at most 63 bytes is written as a length byte and the bytes of each label, then a zero byte |
| DnsNameProofs.LabelTooLong | src/dns/buffer.rs:216-219 | a label over 63 bytes gives InvalidLabelLength with the cursor back at its entry value and the earlier labels' bytes left in the buffer |
| DnsNameProofs.WriteQueryNameOutcome | src/dns/buffer.rs:213-227 | the only errors are EndOfBuffer and InvalidLabelLength; the latter comes only from a long label and restores the cursor |
| DnsNameProofs.ReadNameAt | src/dns/buffer.rs:115-168 | a name of labels of 1 to 63 well-formed bytes, laid out with a byte after it, decodes as the name with the cursor past it |
| DnsNameProofs.NameRoundTrip | src/dns/buffer.rs:115-227 | writing such a name and reading it back from the same place gives the name, with both cursors at the end of the encoding |
| DnsNameProofs.NameAfterJumps | src/dns/buffer.rs:138-160 | once a pointer was followed, labels are decoded without moving the cursor |
| DnsNameProofs.PointerToName | src/dns/buffer.rs:138-148 | a pointer (top bits 11, 14-bit offset) to a name decodes as that name and leaves the cursor just past the pointer |
| DnsNameProofs.FiveJumpsSucceed | src/dns/buffer.rs:120-148 | a chain of five pointers is followed to the name at its end |
| DnsNameProofs.SixJumpsFail | src/dns/buffer.rs:120-125 | a sixth pointer in a row gives JumpLimitExceeded |
| DnsNameProofs.SelfPointerFails | src/dns/buffer.rs:120-148 | a pointer to itself does not loop forever: the decoder gives up with JumpLimitExceeded |
| DnsNameProofs.FirstLabelLength | src/dns/buffer.rs:149-160 | a name that starts with a label length n below 0xC0 decodes, if at all, to at least n bytes |
| DnsHeader.ResponseCode.FromU8 | src/dns/header.rs:17-26 | the codes 0 to 5 map to the variants whose discriminant they are |
| DnsHeader.ResponseCode.ToU8 | src/dns/header.rs:7-14 | every response code is at most 5 |
| DnsHeader.Header.New | src/dns/header.rs:73-89 | the new header has id 0, all four counts 0, every flag field in range, and packs to the zero flag word |
| DnsHeader.Header.SetFlags | src/dns/header.rs:108-126 | unpacking a flag word changes only the flag fields, each within its width |
| DnsHeader.Header.Bytes | src/dns/header.rs:151-160 | the header's wire form is 12 bytes |
| DnsHeader.Header.Read | src/dns/header.rs:92-105 | result and new state are those of the header-reading function |
| DnsHeader.Header.ReadCountsOf | src/dns/header.rs:99-104 | the four counts are read in order into the header, stopping at the first failure |
| DnsHeader.Header.Write | src/dns/header.rs:151-160 | result and new state are those of the header-writing function |
| DnsHeader.FlagWordRoundTrip | src/dns/header.rs:108-149 | get_flags(set_flags(f)) == f for every flag word whose response code is at most 5 |
| DnsHeader.FlagFieldsRoundTrip | src/dns/header.rs:108-149 | set_flags(get_flags(h)) restores h exactly when the opcode and reserved fields fit 4 and 3 bits |
| DnsHeader.OpcodeSpill | src/dns/header.rs:133 | an opcode of 16 spills into bit 15 and reads back as a response with opcode 0 |
| DnsHeader.WriteHeaderBytes | src/dns/header.rs:151-160 | write emits id, flags, and the four counts as big-endian 16-bit words, in order |
| DnsHeader.ReadHeaderAt | src/dns/header.rs:92-105 | a header's wire form reads back as the header when its flag fields fit |
| DnsHeader.HeaderRoundTrip | src/dns/header.rs:92-160 | writing a header and reading it back from the same place gives the same header |
| DnsHeader.ReadHeaderConsumes | src/dns/header.rs:92-105 | read never changes the bytes and, when it succeeds, consumes exactly 12 of them |
| DnsHeader.ResponseCodeAborts | src/dns/header.rs:125 | a flag word whose response code is 6 to 15 ends the read with the panic of from_u8, right after the flag word |
| DnsQuery.QueryType.FromU16 | src/dns/query.rs:29-42 | the nine known codes get their variants and every other code is kept in UNKNOWN |
| DnsQuery.QueryType.ToU16 | src/dns/query.rs:45-58 | named variants encode to known codes |
| DnsQuery.TypeCodeRoundTrip | src/dns/query.rs:29-58 | to_u16(from_u16(v)) == v for every 16-bit v |
| DnsQuery.TypeRoundTrip | src/dns/query.rs:29-58 | from_u16(to_u16(t)) == t exactly when t is not UNKNOWN of a known code |
| DnsQuery.TypeCodesDistinct | src/dns/query.rs:45-58 | distinct types, apart from UNKNOWN of a known code, have distinct codes |
| DnsQuery.QueryClass.FromU16 | src/dns/query.rs:85-96 | total: 0xFF00 to 0xFFFF are ReservedPrivate and unlisted codes UNASSIGNED |
| DnsQuery.QueryClass.ToU16 | src/dns/query.rs:99-110 | every class encodes to a code that from_u16 maps to a listed class |
| DnsQuery.ClassRoundTrip | src/dns/query.rs:85-110 | every class but UNASSIGNED survives encoding and decoding; UNASSIGNED comes back as ReservedPrivate |
| DnsQuery.ClassCodeRoundTrip | src/dns/query.rs:85-110 | to_u16(from_u16(v)) == v exactly for v in {0, 1, 3, 4, 254, 255, 0xFF00} |
| DnsQuestion.Question.New | src/dns/question.rs:31-37 | the question has the given name and type and class IN |
| DnsQuestion.Question.Bytes | src/dns/question.rs:48-53 | the wire form is the encoded name and 4 more bytes |
| DnsQuestion.Question.Read | src/dns/question.rs:39-46 | result and new state are those of the question-reading function |
| DnsQuestion.Question.Write | src/dns/question.rs:48-53 | result and new state are those of the question-writing function |
| DnsQuestion.NameErrorFirst | src/dns/question.rs:49-51 | a name error fails the whole write before any type or class byte is written |
| DnsQuestion.WriteQuestionBytes | src/dns/question.rs:48-53 | write emits the encoded name, then the type code, then the class code |
| DnsQuestion.ReadQuestionAt | src/dns/question.rs:39-46 | read decodes name, type and class in order and advances past the name's wire form plus 4 |
| DnsQuestion.QuestionRoundTrip | src/dns/question.rs:39-53 | a question with a well-formed name, a type other than UNKNOWN of a known code and a class other than UNASSIGNED reads back unchanged |
| DnsQuestion.UnknownKnownTypeReadsAsNamed | src/dns/query.rs:29-42 | UNKNOWN(1) is written and reads back as A |
| DnsRecord.Record.RecordType | src/dns/record.rs:345-365 | the type a record is written with: its variant's, or the stored one for UNKNOWN |
| DnsRecord.Record.HeadBytes | src/dns/record.rs:195-343 | name, type, class and TTL take the encoded name plus 8 bytes |
| DnsRecord.Record.Read | src/dns/record.rs:107-193 | result and new state are those of the record-reading function |
| DnsRecord.Record.Write | src/dns/record.rs:195-343 | result and new state are those of the record-writing function |
| DnsRecordProofs.MatchesRecordType | src/dns/record.rs:345-365 | matches_query_type(t) holds exactly when t is the type the record is written with |
| DnsRecordProofs.ClassIsIn | src/dns/record.rs:195-343 | every record is written with class 1 (IN) right after its name and type |
| DnsRecordProofs.WriteDataBytes | src/dns/record.rs:195-343 | each arm of write emits the record's data layout, with lengths cast to 16 bits |
| DnsRecordProofs.WriteRecordBytes | src/dns/record.rs:195-343 | a record whose names fit is written as its wire form, byte by byte |
| DnsRecordProofs.HeadFieldsAt | src/dns/record.rs:109-112 | type, class, 32-bit TTL and 16-bit RDLENGTH are read in order and the class is discarded |
| DnsRecordProofs.WriteHeadFieldsThen | src/dns/record.rs:203-205 | writing type, class 1 and TTL and then more bytes is writing the fields, then, if that succeeded, the rest |
| DnsRecordProofs.ADataAt | src/dns/record.rs:115-118 | the A arm reads one 32-bit address from the data, whatever RDLENGTH says, and moves past 4 bytes |
| DnsRecordProofs.AaaaDataAt | src/dns/record.rs:166-169 | the AAAA arm reads one 128-bit address, whatever RDLENGTH says, and moves past 16 bytes |
| DnsRecordProofs.MxDataAt | src/dns/record.rs:151-160 | the MX arm reads a 16-bit preference and then a name, whatever RDLENGTH says |
| DnsRecordProofs.SrvDataAt | src/dns/record.rs:170-183 | the SRV arm reads priority, weight and port and then a name, whatever RDLENGTH says |
| DnsRecordProofs.SoaFieldsAt | src/dns/record.rs:130-145 | after the two names, the SOA arm reads serial, refresh, retry, expire and minimum as five 32-bit words in order and keeps the name and TTL of the head |
| DnsRecordProofs.SoaDataAt | src/dns/record.rs:127-146 | SOA data laid out as two names and five words reads as the SOA record of those fields, whatever RDLENGTH says |
| DnsRecordProofs.SoaRecordDataAt | src/dns/record.rs:127-146 | an SOA record's data as `write` lays it out, read from after RDLENGTH, gives the record back |
| DnsRecordProofs.ReadRecordAt | src/dns/record.rs:107-193 | the wire form of an A, AAAA, MX, SRV, TXT or unknown-code record reads back as the record |
| DnsRecordProofs.RecordRoundTrip | src/dns/record.rs:107-343 | such a record written at p reads back from p unchanged, both cursors past its wire form |
| DnsRecordProofs.RecordWritten | src/dns/record.rs:195-343 | where it fits, write splices the record's wire form into the buffer |
| DnsRecordProofs.HostNotReadBack | src/dns/record.rs:119-150 | a written NS, CNAME or PTR record whose host is shorter than its first byte's value never reads back as itself |
| DnsRecordProofs.SoaNotReadBack | src/dns/record.rs:235-258 | a written SOA record without RDLENGTH reads, if at all, as a different record |
| DnsRecordCorrected.HostDataAt | src/dns/record.rs:119-150 | NS, CNAME and PTR data holding the host as a name reads back as the record, whatever RDLENGTH says |
| DnsRecordCorrected.CorrectedLayout | src/dns/record.rs:209-270 | a corrected wire form is name, type, class, TTL, RDLENGTH and the data, field by field |
| DnsRecordCorrected.ReadBackHost | src/dns/record.rs:107-150 | an NS, CNAME or PTR record written with RDLENGTH and its host as a name reads back as the record |
| DnsRecordCorrected.ReadBackSoa | src/dns/record.rs:107-146 | an SOA record written with RDLENGTH before its data reads back as the record |
| DnsRecordCorrected.ReadCorrectedAt | src/dns/record.rs:107-193 | the corrected wire form of every record with well-formed names reads back as the record |
| DnsRecordCorrected.WriteCorrectedDataBytes | src/dns/record.rs:209-258 | the corrected data writer emits RDLENGTH and the host through write_query_name, and RDLENGTH before SOA data |
| DnsRecordCorrected.WriteCorrectedRecordBytes | src/dns/record.rs:195-343 | the corrected writer emits the corrected wire form byte by byte |
| DnsRecordCorrected.CorrectedNamesFit | src/dns/buffer.rs:213-227 | well-formed names have labels write_query_name accepts |
| DnsRecordCorrected.CorrectedRecordWritten | src/dns/record.rs:195-343 | where it fits, the corrected writer splices the corrected wire form in at p |
| DnsRecordCorrected.CorrectedRecordRoundTrip | src/dns/record.rs:107-343 | every record with well-formed names, NS, CNAME, PTR and SOA included, written by the corrected writer reads back unchanged |
| DnsPacket.Packet.New | src/dns/packet.rs:33-41 | a new header and four empty sections |
| DnsPacket.Packet.Read | src/dns/packet.rs:43-60 | result and new state are those of the message-reading function |
| DnsPacket.Packet.Write | src/dns/packet.rs:62-69 | result and new state are those of the message-writing function |
| DnsPacket.ReadMany | src/dns/packet.rs:47-58 | a section read gives exactly as many elements as asked, or fails |
| DnsPacket.ReadPacket | src/dns/packet.rs:43-60 | a message that reads has sections as long as the header's counts |
| DnsPacket.ReadQuestionsOf | src/dns/packet.rs:47-49 | the loop reads n questions in order, stopping at the first failure |
| DnsPacket.ReadRecordsOf | src/dns/packet.rs:50-58 | the loop reads n records in order, stopping at the first failure |
| DnsPacket.WriteQuestionsOf | src/dns/packet.rs:64 | try_for_each writes the questions in order, stopping at the first failure |
| DnsPacket.WriteRecordsOf | src/dns/packet.rs:65-67 | try_for_each writes a record section in order, stopping at the first failure |
| DnsPacket.AddressOf | src/dns/packet.rs:124-128 | a record holds an address exactly when it is A or AAAA |
| DnsPacketProofs.WritePacketBytes | src/dns/packet.rs:62-69 | write emits the header, then each section's wire forms in order, with the counts as stored |
| DnsPacketProofs.PacketWritten | src/dns/packet.rs:62-69 | where it fits, write splices the message's wire form into the buffer; otherwise it writes what fits and fails with EndOfBuffer |
| DnsPacketProofs.ReadPacketAt | src/dns/packet.rs:43-60 | a message whose counts agree and whose elements round-trip reads back; a byte must follow it only when its last record ends with a name |
| DnsPacketProofs.PacketRoundTrip | src/dns/packet.rs:43-69 | such a message written at p reads back from p unchanged; one spare byte is needed only when its last record ends with a name |
| DnsPacketProofs.ReadRecordsAt | src/dns/packet.rs:50-58 | a section's records laid out one after another are read back in order, the cursor ending after the last |
| DnsPacketProofs.MiscountedNotRead | src/dns/packet.rs:43-60 | a message whose counts disagree with its sections never comes back from a read |
| DnsPacketProofs.NameserversAppend | src/dns/packet.rs:71-86 | get_nameservers keeps, in order, the delegations of the authority section |
| DnsPacketProofs.NameserverListed | src/dns/packet.rs:71-86 | a (domain, host) pair is listed exactly when an NS authority for a suffix of the query name holds it |
| DnsPacketProofs.FirstNameserver | src/dns/packet.rs:71-86 | the first pair listed is that of the first delegating authority, and the list is empty exactly when none delegates |
| DnsPacketProofs.UnresolvedIsFirstDelegation | src/dns/packet.rs:114-118 | get_uresolved_nameserver gives the host of the first delegation, or None when there is none |
| DnsPacketProofs.FirstGlueFinds | src/dns/packet.rs:94-109 | the inner search gives the address of the first A/AAAA record of the host that matches the type |
| DnsPacketProofs.FirstResolvedSome | src/dns/packet.rs:93-111 | the outer search finds an address exactly when some delegated host has glue of the type |
| DnsPacketProofs.FirstResolvedFinds | src/dns/packet.rs:93-111 | the outer search takes the first host, in delegation order, whose glue is found |
| DnsPacketProofs.ResolvedNeedsGlue | src/dns/packet.rs:88-112 | get_resolved_nameserver finds an address exactly when some delegated host has glue of the type |
| DnsPacketProofs.FirstMatchFinds | src/dns/packet.rs:121-123 | find gives the first record matching the type, and None when there is none |
| DnsPacketProofs.RecordIsFirstAnswer | src/dns/packet.rs:120-129 | get_record gives the address of the first matching answer when that answer is A or AAAA, and None otherwise |
| Utf8.LossyOfValid | src/dns/record.rs:161-165 | lossy conversion leaves well-formed UTF-8 text unchanged |
| IcmpBuffer.PutShape | src/icmp/buffer.rs:104-112 | a write keeps the bytes before the cursor, lays the data out from it and keeps the bytes after it |
| IcmpBuffer.PutOne | src/icmp/buffer.rs:104-112 | one byte overwrites in place below the end and is pushed at the end |
| IcmpBuffer.PutPut | src/icmp/buffer.rs:133-138 | two writes in a row are one write of both runs |
| IcmpBuffer.WordRoundTrip | src/icmp/buffer.rs:115-130 | a 16-, 32- or 64-bit value written at p is read back from p big-endian |
| IcmpBuffer.PacketBuffer.constructor | src/icmp/buffer.rs:39-44 | a new buffer has no bytes and the cursor at 0 |
| IcmpBuffer.PacketBuffer.From | src/icmp/buffer.rs:141-148 | the buffer is a copy of the slice with the cursor at 0 |
| IcmpBuffer.PacketBuffer.Seek | src/icmp/buffer.rs:47-53 | succeeds exactly when p < len and then moves the cursor to p; otherwise PositionOutOfBounds(p) with the cursor unchanged |
| IcmpBuffer.PacketBuffer.Get | src/icmp/buffer.rs:56-61 | the byte at p exactly when p < len, otherwise EndOfBuffer |
| IcmpBuffer.PacketBuffer.GetBytes | src/icmp/buffer.rs:64-69 | bytes p..p+len exactly when they are within the buffer, otherwise EndOfBuffer |
| IcmpBuffer.PacketBuffer.Read | src/icmp/buffer.rs:72-76 | the byte at the cursor and the cursor advanced, or EndOfBuffer at the end |
| IcmpBuffer.PacketBuffer.ReadU16 | src/icmp/buffer.rs:79-81 | the next two bytes big-endian, or EndOfBuffer having consumed what was left |
| IcmpBuffer.PacketBuffer.ReadU32 | src/icmp/buffer.rs:84-86 | the next four bytes big-endian, or EndOfBuffer having consumed what was left |
| IcmpBuffer.PacketBuffer.ReadU64 | src/icmp/buffer.rs:89-91 | the next eight bytes big-endian, or EndOfBuffer having consumed what was left |
| IcmpBuffer.PacketBuffer.ReadBytes | src/icmp/buffer.rs:94-101 | the next len bytes and the cursor advanced, or EndOfBuffer with the cursor unchanged |
| IcmpBuffer.PacketBuffer.Write | src/icmp/buffer.rs:104-112 | never fails: the byte overwrites or is appended at the cursor, which advances by one |
| IcmpBuffer.PacketBuffer.WriteU16 | src/icmp/buffer.rs:115-118 | never fails: the value's two big-endian bytes are written at the cursor |
| IcmpBuffer.PacketBuffer.WriteU32 | src/icmp/buffer.rs:121-124 | never fails: the value's four big-endian bytes are written at the cursor |
| IcmpBuffer.PacketBuffer.WriteU64 | src/icmp/buffer.rs:127-130 | never fails: the value's eight big-endian bytes are written at the cursor |
| IcmpBuffer.PacketBuffer.WriteBytes | src/icmp/buffer.rs:133-138 | all bytes are written in order from the cursor, which advances by their count |
| IcmpTypes.IcmpType.ToU8 | src/icmp/types.rs:20-35 | the named types encode to the RFC 792 codes and Unknown to 17 |
| IcmpTypes.IcmpType.FromU8 | src/icmp/types.rs:37-52 | a byte decodes as Unknown exactly when it is not one of the eleven codes |
| IcmpTypes.FromToU8 | src/icmp/types.rs:20-52 | from_u8(to_u8(t)) == t for every type, Unknown included |
| IcmpTypes.ToFromU8 | src/icmp/types.rs:20-52 | to_u8(from_u8(v)) == v on the eleven codes, and 17 for every other byte |
| IcmpTypes.IcmpContentType.ToU32 | src/icmp/types.rs:115-128 | identifier and sequence number are the high and low halves; the pointer is the top byte above the low 24 bits of unused |
| IcmpTypes.IcmpContentType.New | src/icmp/types.rs:88-114 | fails exactly for Unknown; otherwise builds content of the type's variant that encodes back to the word |
| IcmpTypes.Join | src/icmp/types.rs:117-119 | the word (hi << 16) or-ed with lo has hi and lo as its halves |
| IcmpTypes.NewToU32 | src/icmp/types.rs:88-128 | new(t, to_u32(c)) == c for content of the type's variant whose unused field fits 24 bits |
| IcmpTypes.ParameterProblemMasks | src/icmp/types.rs:124-126 | to_u32 keeps only the low 24 bits of a ParameterProblem's unused field |
| IcmpPacket.DefaultMessage | src/icmp/packet.rs:15-28 | the default packet is an echo request with code 0, checksum 0, content Echo(1, 1) and 32 zero payload bytes |
| IcmpPacket.EchoMessage | src/icmp/packet.rs:31-37 | echo_request has type EchoRequest, code 0, checksum 0, content Echo(id, seq) and n zero bytes of payload |
| IcmpPacket.Encode | src/icmp/packet.rs:40-45 | the laid-out packet is 8 bytes of type, code, checksum and content, then the payload |
| IcmpPacket.Decode | src/icmp/packet.rs:67-83 | read succeeds exactly when 8 bytes remain and the type byte is known; the payload is every remaining byte |
| IcmpPacket.DecodeEncode | src/icmp/packet.rs:39-83 | reading back a laid-out packet of a known type with matching content gives the packet |
| IcmpPacket.PatchChecksum | src/icmp/packet.rs:47-49 | writing a checksum over bytes 2..3 of a laid-out packet is laying out the packet with that checksum |
| IcmpPacket.FoldSum | src/icmp/packet.rs:54-60 | the wrapping fold over the 16-bit words is their plain sum modulo 2^32 |
| IcmpPacket.ChecksumFormula | src/icmp/packet.rs:53-65 | the checksum is 0xFFFF minus the low 16 bits of (s mod 2^20) times (s div 2^16), s the word sum mod 2^32 |
| IcmpPacket.SmallSumChecksum | src/icmp/packet.rs:53-65 | whenever the words sum to less than 65536 the checksum is 0xFFFF |
| IcmpPacket.OnesSumNoCarry | src/icmp/packet.rs:53-65 | without carries the RFC 1071 one's-complement sum is the plain word sum |
| IcmpPacket.ChecksumNotInternet | src/icmp/packet.rs:53-65 | on every buffer whose words sum to 1..0xFFFF the checksum differs from the RFC 1071 one |
| IcmpPacket.WordSumAppend | src/icmp/packet.rs:56-60 | the word sum of an even-length run followed by more bytes is the sum of the two |
| IcmpPacket.EchoChecksum | src/icmp/packet.rs:31-65 | an echo request laid out for write sums to 0x0800 + id + seq, so its checksum is 0xFFFF where RFC 1071 gives 0xFFFF minus that sum |
| IcmpPacket.OnesSumFolds | src/icmp/packet.rs:53-65 | the RFC 1071 one's-complement sum is the plain word sum with every carry folded back in, and 0 only for a zero sum |
| IcmpPacket.WordSumChecksum | src/icmp/packet.rs:39-49 | the words of a laid-out packet sum to those of the packet with a zero checksum, plus the checksum |
| IcmpPacket.InternetChecksumVerifies | src/icmp/packet.rs:39-65 | with the RFC 1071 checksum of the zero-checksum layout in the checksum field, the one's-complement sum of the whole message is 0xFFFF, the receiver's test |
| IcmpPacket.Packet.constructor | src/icmp/packet.rs:6-13 | the packet holds the given fields |
| IcmpPacket.Packet.Default | src/icmp/packet.rs:15-28 | the packet holds the default message |
| IcmpPacket.Packet.EchoRequest | src/icmp/packet.rs:31-37 | the packet holds the echo request message |
| IcmpPacket.Packet.WriteFields | src/icmp/packet.rs:40-45 | type, code, old checksum, content word and payload are written from the cursor |
| IcmpPacket.Packet.Write | src/icmp/packet.rs:39-51 | the checksum is computed over the laid-out buffer (old checksum field included), stored in the packet and written at offset 2, leaving the cursor at 4 |
| IcmpPacket.Packet.Read | src/icmp/packet.rs:67-83 | the packet read is the decoding of the bytes from the cursor, without a checksum check, and the cursor ends at the end |
| IcmpPacket.WriteReadBack | src/icmp/packet.rs:39-83 | writing a packet into an empty buffer gives its layout with the computed checksum, which reads back as the updated packet |

## Left out

- `src/dns/resolve.rs` is not part of this model. Its `lookup` is UDP socket I/O, and the loop of `recursive_lookup` is driven by network replies.
- `src/resolve.rs` and `src/main.rs` are not part of this model. They hold the system resolver, the network fallbacks and console output.
- `src/icmp/socket.rs` is not part of this model. It holds the raw socket calls through `libc`.
- The `Display` implementations of the error enums are left out: they are string formatting only.
- UTF-8 validation is a byte-level predicate (`Utf8.IsValid`), and lossy conversion is a function on bytes. Text is kept as bytes throughout; no `String` is built.
- `Ipv4Addr` and `Ipv6Addr` are their 32- and 128-bit values.
- Rust panics end the process, so they are modelled as error outcomes:
  - `DnsResponseCode::from_u8` on a response code above 5 is the `Abort` error of the header reader;
  - `IcmpContentType::new` on `Unknown` is the `Unimplemented` error of `IcmpContentType.New` and `IcmpPacket.Decode`.
- DnsHeader.ResponseCode.FromU8 requires a code of at most 5, where the source panics; the reader checks this first and fails with `Abort`.
- DnsHeader.Header.SetFlags requires a response code of at most 5, for the same reason.
- IcmpPacket.CalculateChecksum: the unchecked `u32` multiplication is modelled modulo 2^32, which is what a release build computes. A debug build would panic on overflow instead.
- DnsPacketProofs.PacketRoundTrip requires one spare byte after a message whose last record ends with a name, and DnsRecordProofs.ReadRecordAt requires a byte after a record that ends with a name. In both cases the final `seek` of `read_query_name` rejects a name that ends on the buffer's last byte.
- DnsNameProofs.NameRoundTrip requires the encoding to end before the last byte of the buffer, for the same reason.
- The `Utf8ConversionError` variant of the ICMP buffer error is never produced by the modelled ICMP code; it is kept only as a variant.
- The receive path of the ICMP packet (the socket) is not modelled; `IcmpPacket.Packet.Read` starts from a buffer.

## Findings

| source | as written | input that shows it | evidently intended | confidence | as-written member | corrected member |
|---|---|---|---|---|---|---|
| src/dns/record.rs:218-220 | NS, CNAME and PTR write RDLENGTH and the host's raw bytes; read decodes a name there | NS record of host "a.b": the byte 'a' (97) is read as a label length longer than the host | RDLENGTH, then the host through write_query_name | not executed | DnsRecordProofs.HostNotReadBack | DnsRecordCorrected.CorrectedRecordRoundTrip |
| src/dns/record.rs:246-257 | SOA writes no RDLENGTH; read consumes two bytes of the primary name as RDLENGTH | SOA record with primary name "ns.x": the length byte 2 and 'n' are read as RDLENGTH, then 's' (115) as a label length longer than the name | RDLENGTH before the names and fields | not executed | DnsRecordProofs.SoaNotReadBack | DnsRecordCorrected.CorrectedRecordRoundTrip |
| src/icmp/packet.rs:63-64 | the checksum is the complement of the low 16 bits of (sum & 0xFFFFF) * (sum >> 16) | echo request with id 1 and sequence 1: checksum 0xFFFF, RFC 1071 gives 0xF7FD | the RFC 1071 one's-complement checksum | not executed | IcmpPacket.ChecksumNotInternet | IcmpPacket.InternetChecksumVerifies |
