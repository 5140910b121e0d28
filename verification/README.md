# Verified model of simple-dnsd

This project models the logic of simple-dnsd, an authoritative DNS server, in Dafny and
proves properties of it.  It covers the wire codec with name compression, TSIG and base64,
rdata and its text, the in-memory and bind-file transactions, the multi-backend router, the
answer algorithm, the packet cache and rate limiter, dynamic updates and SOA serials, zone
transfer between a primary and a secondary, and master-file text.

Byte strings are sequences of bytes, names are sequences of labels, and tables are maps.
What the server changes in place is a class here, with the same fields and one method for
each operation: `Encoder`, `MemoryBackend`, `MemoryTransaction`, `BindTransaction`,
`BackendRouter`, `Answerer`, `PacketCache`, `Limiter`, `AuthoritativeEngine`.  Every loop of
the source is a method whose contract equates its result, or the new state, with a function
of the inputs or the old state; the theorems are lemmas about those functions.

Clock values, the outcome of access lists and of TSIG checks, the HMAC function and the
address conversions of the C library are parameters, so the theorems hold for all of them.
An exception of `std::stoi` or `std::stoul` is an outcome of its own (`Throws`, `threw`).

## How the parts fit

| files | part |
|---|---|
| Text, DnsName, Numbers, RrTypes, Records | bytes, names, numbers, types, messages |
| NameCodec, Compression, NameRoundTrip | names on the wire and the compression table |
| WireFormat | names, headers, records and EDNS octet by octet |
| MessageCodec, MessageRoundTrip, FirstNames, MessageLimits, MessagePrefix | messages on the wire, names that are not plain, truncation, limits, cut messages |
| Rdata, RdataRoundTrip | rdata and content |
| Tsig, Tampering, Base64, RateLimiter | signatures, altered messages, key text, response rate limiting |
| Store, MemoryBackend, Router, Gsql, CopyZone | zones, searches, backends |
| Serials, Transactions, Updates, UpdateEffects | serials, transactions, dynamic updates |
| Answering, AnswerProperties, AnswerSoundness, Chases, Wildcards, MxGlue, PlainAnswers, SmallZones, AnswerLimits | the answer algorithm |
| Cache, CacheLife, Engine, Replies, CacheRuns, CacheHits, Udp | one call as one step, and runs of them |
| Transfer, Streams, Replication | zone transfer |
| ZoneText, ZoneSyntax, ZoneHosts, ZoneTextRoundTrip, ZoneOwners, ZoneRdata | master files |

A *plain* label has 1 to 63 bytes, no dot, no backslash and no leading white space; a name
is plain if its labels are.  This is what `decodeName` leaves alone when it re-parses the
labels it has joined (`src/simple-dnsd/protocol/dns.cpp:388`, `:399`).  A name *survives* its
text if it comes back from one such re-parsing (`DnsNames.ReparsedIffSurvives`).
`Encodable` asks of a message that its names are plain with at most 20 labels and that
counts, codes and rdata lengths fit their wire fields.

## Where the code departs from its documents and from the standards

The model follows the code in all of these.

- A message whose TC bit is already set is written with zero counts but with its records, so
  it does not come back (`MessageLimits.RoundTripIffNotTc`).
- The encoder may need one pointer for each label while the decoder follows at most 20, so
  names of 21 labels can be written and not read (`MessageLimits.TwentyLabels`).
- The wildcard climb runs before the test whether the name exists, and a CNAME chase that
  ends without data falls through to it for the original name.
- A one-label apex, or the root zone's own name, also asks for the wildcard of the root.
- A cache hit repeats the RD bit, the class and the further questions of the query that
  filled the entry (`CacheHits.HitEchoes` says exactly when these agree).
- The cache key is the text of the name, which two different names can share, so an entry can
  be filled by another name than it serves: a question for the one label `a.b`, which the wire
  form `a\.b` yields, makes the existing name a.b answer with a name error
  (`CacheHits.DottedHidesPair`).  A name that does not survive its text, as one with a dot or a
  backslash inside, may not even get its own answer back from its own entry.
  `CacheHits.SharedKeyExactly` says exactly when a reply can be wrong.
- The text of an MX record is parsed as a name as a whole, so where it gives the priority,
  additional addresses are looked up for another name than the exchange
  (`MxGlue.MxTargetExactly`).
- A label with a dot inside is read as several labels by the gsql backend
  (`Gsql.ClimbIsScan`, `Gsql.DottedLabelMisleads`).
- An `@` in a master file stands for the origin as an owner and as the first word of a content
  with host names, but not as the host of an MX or SRV record or the mailbox of an SOA
  (`ZoneHosts.AtExchangeIsLabel`).
- A record with a ttl of zero does not keep an answer out of the cache if a record with another
  ttl follows it (`CacheLife.ZeroTtlIsKept`).
- A full cache is emptied, where docs/diagrams/architecture.md:211 speaks of LRU/LFU eviction.
- Class NONE in an update deletes the whole record set, and the prerequisites of an update are
  not looked at (`src/simple-dnsd/core/engine.cpp:474-487`).
- An EDNS size of zero in a query lifts the UDP size limit altogether.
- A zone transfer uses the last SOA it lists, and copying a zone the first.
- A record without rdata is sent with empty rdata, and the secondary fills it in from the text
  it makes of that, if it can (`Replication.TravelsIff`).
- A message of 65536 bytes or more is sent behind its size modulo 65536, so a transfer of that
  size changes nothing at the secondary (`Replication.ReplicationExactly`).
- The bind-file transaction ignores a zone drop and renumbers every SOA; the memory
  transaction clears the zone and renumbers apex SOAs only.
- A record does not survive its own zone file if its whole owner column reads as a type (a
  host named `ns` or `mx`), is a label `@` or a directive; one that reads as a ttl or a class
  (a host named `10` or `in`) makes the file unreadable (`ZoneOwners.OwnerComesBackIff`,
  `ZoneOwners.TtlOrClassFails`).  A host named `ns.sub` survives.

## Model

| member | source | states |
|---|---|---|
| Text.ToLower | src/simple-dnsd/utils/platform.cpp:38-42 | the in-place loop lowers every byte, A to Z only, and keeps the length |
| Text.Trim | src/simple-dnsd/utils/platform.cpp:31-36 | erases exactly the leading and the trailing white space |
| Text.Join | src/simple-dnsd/utils/platform.cpp:74-83 | concatenates the parts with the separator between them |
| Text.SplitWs | src/simple-dnsd/utils/platform.cpp:59-67 | extracts exactly the maximal runs without white space, in order |
| Text.WordsOfJoined | src/simple-dnsd/utils/platform.cpp:59-83 | splitting undoes joining with one space, for any list of words |
| DnsNames.Equals | src/simple-dnsd/protocol/dns.cpp:160-170 | true exactly if the label lists agree in lower case |
| DnsNames.CheckSubdomain | src/simple-dnsd/protocol/dns.cpp:147-158 | true exactly if the zone is a case-insensitive suffix of the name; the root contains everything |
| DnsNames.ToString | src/simple-dnsd/protocol/dns.cpp:118-133 | labels joined by dots, a lone dot for the root, the trailing dot on request |
| DnsNames.Parse | src/simple-dnsd/protocol/dns.cpp:80-109 | the escape-aware scanner: a backslash takes the next byte literally, empty labels vanish, one final dot is dropped |
| DnsNames.RelativeQualified | src/simple-dnsd/protocol/dns.cpp:176-192 | a name made relative to a zone above it and qualified again is the same name up to case |
| DnsNames.ReparsedIffSurvives | src/simple-dnsd/protocol/dns.cpp:80-133 | a label list comes back from its dotted text, even only up to case, if and only if it has no dots, no escape before its last byte and no leading white space; and then it comes back exactly |
| DnsNames.EscapedParsed | src/simple-dnsd/protocol/dns.cpp:80-109 | whatever bytes its labels hold, a name comes back from text in which a backslash stands before every byte |
| NameCodec.ComputeSuffixKey | src/simple-dnsd/protocol/dns.cpp:53-62 | the table key is the dotted lower-case text of the suffix |
| NameCodec.EncodeUncompressed | src/simple-dnsd/protocol/dns.cpp:64-76 | labels with length bytes and a terminator; stops at the first label above 63 bytes, keeping what it wrote |
| NameRoundTrip.UncompressedOk | src/simple-dnsd/protocol/dns.cpp:64-76 | a name has an uncompressed form if and only if no label has more than 63 bytes |
| NameCodec.Encoder.EncodeName | src/simple-dnsd/protocol/dns.cpp:333-362 | buffer and table after encoding a name are those of the recursive encoder: longest known suffix as a pointer, new suffixes entered while offsets fit 14 bits |
| NameCodec.DecodeName | src/simple-dnsd/protocol/dns.cpp:364-409 | the decoding loop, recursive at pointers, refuses more than 20 jumps and re-parses the joined labels; success moves the offset forward inside the input |
| Compression.SuffixKeyInjective | src/simple-dnsd/protocol/dns.cpp:53-62 | two plain names have one table key if and only if they are equal up to case |
| Compression.RawExtends | src/simple-dnsd/protocol/dns.cpp:342-409 | appending to the buffer or patching its header changes nothing that could be read before |
| Compression.DecodedIsRaw | src/simple-dnsd/protocol/dns.cpp:364-409 | within the jump budget the decoder returns the re-parsed form of the labels it collects, where a pointer contributes the name it leads to, itself re-parsed |
| Compression.EncodedNameKeepsTable | src/simple-dnsd/protocol/dns.cpp:342-360 | the table invariant: after a plain name is written every entry lies between 12 and 0x4000, and if a plain name can have its key that name is read there, with fewer jumps than labels; entries are never lost or changed |
| NameRoundTrip.NameComesBack | src/simple-dnsd/protocol/dns.cpp:333-409 | a plain name of at most 20 labels, encoded in any settled state, decodes from any extension of the buffer to the same name up to case, ending where the encoder ended |
| NameRoundTrip.ReencodedName | src/simple-dnsd/protocol/dns.cpp:333-362 | encoding the decoded spelling of a name instead gives the same bytes and the same table |
| NameRoundTrip.UncompressedRoundTrip | src/simple-dnsd/protocol/dns.cpp:64-76 | the uncompressed form decodes to the name if and only if the name survives its own text |
| WireFormat.SecondTimePoints | src/simple-dnsd/protocol/dns.cpp:342-350 | a plain name first written at an offset below 16384 is, in any case, two octets the second time: 192 and that offset |
| WireFormat.EndIsShared | src/simple-dnsd/protocol/dns.cpp:342-362 | a new first label in front of such a name is written out, and the rest is the pointer |
| WireFormat.LabelLayout | src/simple-dnsd/protocol/dns.cpp:364-409 | a label of 1 to 63 octets is read from behind its length octet, if the input has them all |
| WireFormat.PointerLayout | src/simple-dnsd/protocol/dns.cpp:364-392 | octets from 192 up point to the offset in their low 14 bits, lengths from 64 to 191 are refused, and so is the twenty-first pointer |
| MessageCodec.EncodeMessage | src/simple-dnsd/protocol/dns.cpp:451-522 | header, sections, compression restart and truncation: bytes and flag are those of the section functions, with the header patched over the first twelve bytes |
| MessageCodec.WriteSections | src/simple-dnsd/protocol/dns.cpp:459-485 | questions first, then the record sections and the uncompressed TSIG record if records are wanted |
| MessageCodec.DecodeMessage | src/simple-dnsd/protocol/dns.cpp:524-596 | succeeds exactly if header, counted questions and counted records can all be read, and returns them with OPT and TSIG sorted out |
| MessageCodec.SortAdditional | src/simple-dnsd/protocol/dns.cpp:581-594 | the last OPT record becomes the EDNS data and stays, the last TSIG record is taken out of the section |
| MessageRoundTrip.HeaderComesBack | src/simple-dnsd/protocol/dns.cpp:487-549 | every header field with its bits and counts is read back from the patched header |
| WireFormat.HeaderLayout | src/simple-dnsd/protocol/dns.cpp:524-549 | every header field of a decoded message by the octet and the bits it stands in |
| WireFormat.QuestionLayout | src/simple-dnsd/protocol/dns.cpp:550-562 | type and class stand in two octets each behind the name; a question decodes exactly if they are all there |
| WireFormat.RecordLayout | src/simple-dnsd/protocol/dns.cpp:413-447 | type, class, ttl, length and rdata stand behind the name; a record decodes exactly if they are all there, and ends behind its rdata |
| MessageRoundTrip.RrComesBack | src/simple-dnsd/protocol/dns.cpp:413-447 | a record whose name is plain comes back after any settled prefix, with its text made anew from the rdata |
| MessageRoundTrip.RoundTrip | src/simple-dnsd/protocol/dns.cpp:451-596 | message round trip: every encodable message with TC clear decodes to the same header, types, classes, ttls and rdata, names up to case, EDNS mirrored from OPT, TSIG moved to its own field |
| WireFormat.EdnsComesBack | src/simple-dnsd/protocol/dns.cpp:581-594 | the EDNS data of a decoded message is what the wire fields of its last OPT record say: the class is the UDP size, the ttl holds extended code, version and the DNSSEC bit; without an OPT record there is none and the size is 512 |
| MessageRoundTrip.ReencodedMessage | src/simple-dnsd/protocol/dns.cpp:451-596 | re-encode stability: encoding the decoded message gives the same bytes, with the TSIG record and without it |
| FirstNames.FirstMessageArrives | src/simple-dnsd/protocol/dns.cpp:451-596 | a message whose first question asks for any name of labels of 1 to 63 bytes always decodes, even where other names share its table keys: plain names come back up to case, the first name comes back re-parsed, and as the owner of a record re-parsed twice |
| FirstNames.TwiceIffSurvives | src/simple-dnsd/protocol/dns.cpp:364-409 | a name comes back from two re-parsings, even only up to case, if and only if it survives one |
| FirstNames.SurvivorRoundTrip | src/simple-dnsd/protocol/dns.cpp:451-596 | the round trip for first names that survive their text, plain or not and of any number of labels |
| FirstNames.TruncatedArrives | src/simple-dnsd/protocol/dns.cpp:459-512 | what is sent of a message that is cut decodes to the same questions, with TC set and no records, if the first name survives and the others are plain |
| MessageLimits.Truncation | src/simple-dnsd/protocol/dns.cpp:459-521 | with a limit, the reply is complete and within it, or it is flagged and is exactly header plus questions with TC set and zero counts, which decodes to the same questions and empty sections |
| MessageLimits.RoundTripIffNotTc | src/simple-dnsd/protocol/dns.cpp:459-512 | a message comes back from its wire form if and only if TC was clear or it has no records: a preset TC zeroes the counts of records that are written all the same |
| MessageLimits.AcceptedFits | src/simple-dnsd/protocol/dns.cpp:524-596 | decoder totality: every accepted input has at least 12 + 5*qd + 11*(an+ns+ar) bytes, section lengths match the counts, and TSIG records are counted but not kept |
| MessageLimits.CyclicNameRefused | src/simple-dnsd/protocol/dns.cpp:364-392 | a name that runs into any cycle of pointers and labels is refused |
| MessageLimits.TwentyLabels | src/simple-dnsd/protocol/dns.cpp:333-409 | 20 labels is the exact limit: all messages of plain names up to n labels can be read back if and only if n <= 20 |
| Rdata.ChunkText | src/simple-dnsd/protocol/dns.cpp:715-725 | the chunking loop cuts TXT text into character strings of at most 255 bytes |
| Rdata.CollectText | src/simple-dnsd/protocol/dns.cpp:845-857 | the TXT reading loop concatenates the character strings and fails on one that runs over the end |
| Rdata.ReadHex | src/simple-dnsd/protocol/dns.cpp:783-788 | the hexadecimal pairs of the generic form, or the exception of the first pair that is no number |
| Rdata.ConvertedKeeps | src/simple-dnsd/protocol/dns.cpp:653-797 | a conversion changes rdata, content and priority of a record and nothing else |
| Numbers.DecimalReadBack | src/simple-dnsd/zone/zone.cpp:426-456 | std::to_string of an unsigned value is read back by stoul and stoi |
| Numbers.NumberRead | src/simple-dnsd/protocol/dns.cpp:679-738 | of blanks, an optional sign, digits and whatever follows them stoi takes the value if it fits 32 bits, and stoul the value modulo 2^64 if the digits fit 64; else they throw |
| RdataRoundTrip.GenericRoundTrip | src/simple-dnsd/protocol/dns.cpp:770-900 | the RFC 3597 form of any byte string parses back to it |
| RdataRoundTrip.TxtRoundTrip | src/simple-dnsd/protocol/dns.cpp:710-857 | TXT text of any length is cut into chunks whose concatenation is the text |
| RdataRoundTrip.TxtRdataIffCanonical | src/simple-dnsd/protocol/dns.cpp:710-857 | TXT rdata comes back from its quoted text if and only if it is cut the way the writer cuts |
| RdataRoundTrip.NameRdataRoundTrip | src/simple-dnsd/protocol/dns.cpp:653-902 | NS, CNAME and PTR rdata survive the trip through text |
| RdataRoundTrip.MxRoundTrip | src/simple-dnsd/protocol/dns.cpp:653-902 | MX rdata survives the trip through text, with the priority in the record |
| RdataRoundTrip.MxFromRecord | src/simple-dnsd/protocol/dns.cpp:679-696 | MX text that is a host alone takes the priority of the record |
| RdataRoundTrip.SrvRoundTrip | src/simple-dnsd/protocol/dns.cpp:653-902 | SRV rdata survives the trip through text |
| RdataRoundTrip.SrvFromRecord | src/simple-dnsd/protocol/dns.cpp:728-754 | SRV text of three words takes the priority of the record |
| RdataRoundTrip.SoaRoundTrip | src/simple-dnsd/protocol/dns.cpp:653-902 | SOA rdata with its two names and five timers survives the trip through text |
| RdataRoundTrip.CaaRoundTrip | src/simple-dnsd/protocol/dns.cpp:653-902 | CAA rdata comes back from its text if and only if the tag is a word and the value has no white space but single spaces inside |
| RdataRoundTrip.AddressRoundTrip | src/simple-dnsd/protocol/dns.cpp:600-636 | A and AAAA rdata come back if and only if the address parser reads what the address printer wrote |
| RrTypes.TypeReadBack | src/simple-dnsd/protocol/dns.cpp:196-312 | every 16-bit type is read back from its text, named or TYPEn |
| RrTypes.LowTypes | src/simple-dnsd/protocol/dns.cpp:196-253 | the names of the types 1, 2, 5, 6, 12, 15, 16, 28, 33, 35, 41 and 43 |
| RrTypes.HighTypes | src/simple-dnsd/protocol/dns.cpp:196-253 | the names of the types 46, 47, 48, 250, 251, 252, 255 and 257 |
| Tsig.SignMessage | src/simple-dnsd/protocol/tsig.cpp:99-135 | the TSIG record carries the MAC over the unsigned wire form and the canonical variables |
| Tsig.VerifyMessage | src/simple-dnsd/protocol/tsig.cpp:137-196 | each refusal in order: no TSIG, bad rdata, short fields, short MAC, clock outside the fudge, wrong MAC |
| Tsig.SignedMessageVerifies | src/simple-dnsd/protocol/tsig.cpp:99-196 | for any HMAC function, the decoded wire form of a signed message is accepted if and only if the clock is within the fudge and the verifier's key gives the same MAC over the message as sent |
| Tsig.SameKeyVerifies | src/simple-dnsd/protocol/tsig.cpp:99-196 | with the signing key it is accepted exactly while the clocks agree within the fudge |
| Tampering.SignedOctets | src/simple-dnsd/protocol/tsig.cpp:99-135 | the MAC is computed over the wire form without TSIG, the key name, class ANY, ttl 0, the algorithm name, time, fudge, error 0 and other length 0, octet by octet; the rdata of the TSIG record likewise |
| Tampering.TamperedMessageRefused | src/simple-dnsd/protocol/tsig.cpp:99-196 | for any HMAC that is injective in its data, a message that carries the TSIG record of a signed one is accepted if and only if its wire form without TSIG is that of the signed message and the clock is within the fudge |
| Tampering.AlteredTimesRefused | src/simple-dnsd/protocol/tsig.cpp:137-196 | with time or fudge changed in the rdata, the signed message is not accepted, whatever the clock says |
| Tampering.OtherKeyRefused | src/simple-dnsd/protocol/tsig.cpp:99-196 | a verifier with the same secret accepts if and only if its key name and algorithm encode to the same octets and the clock is within the fudge |
| Base64.EncodeBase64 | src/simple-dnsd/protocol/tsig.cpp:63-82 | the accumulator loop, wrapping at 32 bits, emits the symbols and the padding |
| Base64.DecodeBase64 | src/simple-dnsd/protocol/tsig.cpp:41-61 | skips padding and line ends, refuses other symbols, takes a zero byte for the value 64 as strchr does |
| Base64.RoundTrip | src/simple-dnsd/protocol/tsig.cpp:41-82 | every byte string comes back, from exactly 4*ceil(n/3) symbols, although the accumulator is never masked |
| Base64.EncodedIsGrouped | src/simple-dnsd/protocol/tsig.cpp:63-82 | the accumulator computes section 4 of RFC 4648: three octets are four letters of A-Z, a-z, 0-9, + and /, and one or two are filled up with equals signs |
| Base64.LettersDecide | src/simple-dnsd/protocol/tsig.cpp:41-61 | text is refused if and only if it has a byte that is no letter, equals sign, line end, blank or zero; and all text with the letters of an encoding decodes to what was encoded |
| RateLimiter.Limiter.Allow | src/simple-dnsd/core/engine.cpp:119-135 | one request changes the bucket of its own address only |
| RateLimiter.AllowedIffWithinRate | src/simple-dnsd/core/engine.cpp:119-135 | over every run with a clock that does not go back, a request is allowed exactly if fewer than `rate` requests of its address came before it in its clock second |
| RateLimiter.WindowBound | src/simple-dnsd/core/engine.cpp:119-135 | any window of 1000 ms lets through at most 2*rate requests of an address |
| Store.KeyInjective | src/simple-dnsd/protocol/dns.cpp:135-137 | plain names have one lower-case key text if and only if they are equal up to case |
| Store.CutIsDeepest | src/simple-dnsd/backend/memory.cpp:190-211 | findDelegation returns the deepest NS owner strictly below the apex, and nothing if and only if there is none |
| Store.FoundIsLongest | src/simple-dnsd/backend/memory.cpp:118-131 | the zone found contains the name and has the most labels of all that do; nothing is found only if no zone contains the name |
| Store.LongestIsUnique | src/simple-dnsd/backend/memory.cpp:118-131 | the longest match is unique, so the order of the zone table does not matter |
| MemoryBackends.MemoryBackend.FindZone | src/simple-dnsd/backend/memory.cpp:118-131 | the scan over all zones, in any order, finds the longest match |
| MemoryBackends.MemoryBackend.Lookup | src/simple-dnsd/backend/memory.cpp:142-159 | exactly the enabled records of the name and type, in order; ANY takes all types |
| MemoryBackends.MemoryBackend.NameExists | src/simple-dnsd/backend/memory.cpp:173-188 | true exactly if some record, disabled or not, is owned at or below the name |
| MemoryBackends.MemoryBackend.FindDelegation | src/simple-dnsd/backend/memory.cpp:190-211 | the climb over parents finds the first NS owner below the apex |
| MemoryBackends.MemoryBackend.CreateZone | src/simple-dnsd/backend/memory.cpp:222-240 | refuses an existing name; otherwise the new zone holds its SOA, with rdata filled in from its text |
| MemoryBackends.CreatedKeepsOthers | src/simple-dnsd/backend/memory.cpp:222-240 | creating a zone leaves every search outside it unchanged, and the zone is then found under its name |
| Transactions.Erase | src/simple-dnsd/backend/memory.cpp:66-75 | the erase-remove idiom keeps exactly the records the deletion does not hit, in order |
| Transactions.MemoryTransaction.ReplaceRrset | src/simple-dnsd/backend/memory.cpp:34-41 | queues one deletion and then the new records |
| Transactions.MemoryTransaction.Rollback | src/simple-dnsd/backend/memory.cpp:91-94 | forgets queued adds and deletes, but not a requested serial or zone drop |
| Transactions.MemoryTransaction.Commit | src/simple-dnsd/backend/memory.cpp:60-90 | drop, or all deletes, then all adds with missing rdata filled in, then the serial of every apex SOA; an exception leaves what was done before it |
| Transactions.BindTransaction.ReplaceRrset | src/simple-dnsd/backend/bindfile.cpp:176-181 | deletes and inserts in the snapshot at once |
| Transactions.BindTransaction.SetSoaSerial | src/simple-dnsd/backend/bindfile.cpp:198-205 | renumbers every SOA of the snapshot, wherever it stands |
| Transactions.BindTransaction.Commit | src/simple-dnsd/backend/bindfile.cpp:206-215 | overwrites the records of the zone, or fails if the zone has gone |
| Transactions.WithoutAllIsFilter | src/simple-dnsd/backend/memory.cpp:66-75 | a sequence of deletes leaves exactly the records that none of them hits |
| Transactions.AppliedIsSurvivors | src/simple-dnsd/backend/bindfile.cpp:172-195 | the eager result is the old records that no deletion takes, followed by the adds that no later operation deletes |
| Transactions.DeferredIsEager | src/simple-dnsd/backend/memory.cpp:29-95 | the deferred commit gives the old records filtered by all deletes followed by all adds, and the eager transaction gives the same list if and only if no delete or replace matches a record added earlier in the transaction |
| Transactions.NumberedAlike | src/simple-dnsd/backend/bindfile.cpp:198-205 | with a final serial, and where no renumbering throws, the two agree if and only if no delete hits an earlier add and renumbering would leave every SOA away from the apex as it is |
| Router.BackendRouter.FindZone | src/simple-dnsd/backend/router.cpp:63-75 | over all backends in order, a later one wins only with strictly more labels |
| Router.BackendRouter.OwnerOf | src/simple-dnsd/backend/router.cpp:77-87 | the first backend that lists an equal name |
| Router.BackendRouter.Lookup | src/simple-dnsd/backend/router.cpp:98-105 | looks only into the owner of the zone |
| Router.OwnerIsSupplier | src/simple-dnsd/backend/router.cpp:63-87 | the zone found is the longest match over all zones of all backends, and ownerOf picks the very backend that supplied it |
| Router.ViewIsSupplied | src/simple-dnsd/backend/router.cpp:63-126 | all searches of one query therefore read the zone that was found, in one backend |
| Gsql.ClimbToZone | src/simple-dnsd/backend/gsql.cpp:369-389 | the parent climb over exact-name rows |
| Gsql.ClimbIsScan | src/simple-dnsd/backend/gsql.cpp:369-389 | the climb over exact rows and the memory scan find the same zone at a name, for every table of zones, if and only if no suffix of the name is written like a zone name that does not contain it |
| Gsql.PlainIsUnambiguous | src/simple-dnsd/backend/gsql.cpp:369-389 | so they agree for every plain name |
| Gsql.DottedLabelMisleads | src/simple-dnsd/backend/gsql.cpp:369-389 | the one label a.b is taken for the name a.b: the climb finds a zone at it that the scan does not find |
| Gsql.DottedLabelArrives | src/simple-dnsd/protocol/dns.cpp:386-399 | that label arrives: the bytes of the label a\.b decode to it, because the joined text is parsed again and the backslash vanishes |
| Gsql.DotLabelIsHarmless | src/simple-dnsd/backend/gsql.cpp:369-389 | sharing a row text with another name is not enough to mislead: the one label of a dot is written like the root, and the two still agree on it |
| Gsql.DelegationsAgree | src/simple-dnsd/backend/gsql.cpp:456-466 | the climb for delegations agrees with the memory backend on all names of a zone if and only if no delegation consists of disabled records alone |
| CopyZone.Copy | src/simple-dnsd/backend/router.cpp:155-184 | create with the first SOA, then add everything else in one transaction |
| CopyZone.CopyExactly | src/simple-dnsd/backend/router.cpp:155-184 | a backend that has the zone is left alone; otherwise the copy throws if and only if some record cannot be filled with rdata, and else leaves the SOA and all other records there, each filled, and no other zone touched |
| CopyZone.CopyIsPermutation | src/simple-dnsd/backend/router.cpp:155-184 | what is copied is a permutation of the source if and only if the source has one SOA, owned by the very name of the zone; records with rdata are copied as they are |
| Answering.Answerer.Chase | src/simple-dnsd/core/engine.cpp:320-348 | at most eight hops; each CNAME set is appended before its target is looked at |
| Answering.Answerer.ClimbWildcards | src/simple-dnsd/core/engine.cpp:350-368 | wildcards from the parent up to the apex, with the extra look at the wildcard of the root for a one-label apex |
| Answering.Answerer.AddGlue | src/simple-dnsd/core/engine.cpp:172-187 | appends the addresses of in-zone targets, record by record |
| Answering.Answerer.AnswerQuery | src/simple-dnsd/core/engine.cpp:279-382 | the whole algorithm over the router: zone, cut, ANY, chase, wildcards, existence |
| AnswerProperties.WildcardsExactly | src/simple-dnsd/core/engine.cpp:350-368 | the climb finds nothing if and only if no wildcard name from the parent to the apex owns the type or a CNAME |
| Wildcards.NearestWildcardAnswers | src/simple-dnsd/core/engine.cpp:350-377 | a name that nothing refers and that owns neither the type nor a CNAME is answered with exactly the records of the nearest wildcard that owns one of them, in order and under the name itself; the type goes before the CNAME |
| AnswerProperties.NxdomainExactly | src/simple-dnsd/core/engine.cpp:279-382 | NXDOMAIN if and only if a zone matches, no cut lies at or above the name, the type is not ANY, nothing is owned at or below the name, and no wildcard on the way to the apex owns the type or a CNAME; the answer section is then empty and the authority section holds the SOA |
| AnswerProperties.CnameChain | src/simple-dnsd/core/engine.cpp:320-348 | with at most one CNAME per owner, every response from inside the chase loop is a linked chain from the question name of at most eight CNAMEs that ends out of the zone or in exactly the records of the type at the last target |
| Chases.ChainReachesData | src/simple-dnsd/core/engine.cpp:320-348 | up to seven CNAMEs inside the zone are followed: the answer is exactly them and then the records of the type at the last name; additional addresses are given exactly for NS and MX, and exactly those of the in-zone names that the texts read as |
| Chases.ChainLeavesZone | src/simple-dnsd/core/engine.cpp:320-348 | a chain that leaves the zone after up to eight CNAMEs is answered with exactly these |
| Chases.ChainGivenUp | src/simple-dnsd/core/engine.cpp:320-382 | eight CNAMEs inside the zone, a loop among them, are given up: where no wildcard answers, the answer is exactly these, without what the last name owns, and with the SOA |
| Chases.ReplyOpt | src/simple-dnsd/core/engine.cpp:64-80 | a reply ends in an OPT record with the configured size if and only if the query had EDNS, and has no other |
| Chases.AnyReply | src/simple-dnsd/core/engine.cpp:313-318 | ANY gets one HINFO record under the name of the question, with the text RFC8482 and a ttl of 3600 |
| AnswerProperties.BodyAlike | src/simple-dnsd/core/engine.cpp:279-382 | the case of the question changes nothing but the owner names that echo it |
| AnswerSoundness.GlueExactly | src/simple-dnsd/core/engine.cpp:172-187 | the glue is exactly the enabled A and AAAA records owned by the in-zone names that the whole texts of the records parse to; for MX that is not the exchange where the text gives a priority |
| MxGlue.MxTargetExactly | src/simple-dnsd/core/engine.cpp:172-187 | for every MX record the name that glue is looked up for is the exchange, the host that its text is converted to, if and only if the text gives no priority in front of it |
| MxGlue.MxTargetIsNotExchange | src/simple-dnsd/core/engine.cpp:172-187 | for an MX record whose text is made from its rdata that name is the exchange with the priority and a space in front of its first label, or as a label of their own |
| AnswerSoundness.ReferralExactly | src/simple-dnsd/core/engine.cpp:291-309 | no error and not authoritative if and only if the deepest cut lies above the name, or at it with a type other than NS and DS; authority is then its NS set |
| AnswerSoundness.NodataExactly | src/simple-dnsd/core/engine.cpp:279-382 | an authoritative empty answer without error if and only if the name is owned at or below, nothing refers, and neither the name nor a wildcard has the type or a CNAME |
| AnswerSoundness.AnswersAreAccounted | src/simple-dnsd/core/engine.cpp:279-382 | every answer has the type asked for or is a CNAME, and is an enabled record of the zone or of a wildcard on the way to the apex; ANY gets HINFO alone; every authority record is an enabled NS or SOA record |
| Cache.PacketCache.Put | src/simple-dnsd/core/engine.cpp:82-94 | a full cache is emptied first; ttl zero or size zero stores nothing |
| Cache.PacketCache.Get | src/simple-dnsd/core/engine.cpp:96-108 | an expired entry is erased and missed |
| Cache.CacheKeyInjective | src/simple-dnsd/core/engine.cpp:241-244 | for plain names the key tells exactly the name up to case, the type, the transport and EDNS |
| CacheLife.ShortestTtlCounts | src/simple-dnsd/core/engine.cpp:260-276 | with no configured ttl, and no ttl of zero, an answer lives as long as its shortest-lived answer or authority record that is no OPT record |
| CacheLife.ZeroTtlIsKept | src/simple-dnsd/core/engine.cpp:260-276 | a ttl of zero does not keep an answer out of the cache if a record with another ttl follows |
| CacheLife.KeptUntilExpiry | src/simple-dnsd/core/engine.cpp:241-277 | an answer is kept if and only if the cache is in use, its code is 0 or 3 and its ttl is not zero; the next query with its key is served from it up to that many seconds later, whatever the zones hold, and afresh from there on |
| Engine.AuthoritativeEngine.ServeCached | src/simple-dnsd/core/engine.cpp:241-277 | look, decode and renumber a hit; otherwise answer and remember for the shortest ttl |
| Engine.AuthoritativeEngine.Handle | src/simple-dnsd/core/engine.cpp:207-239 | one call as one step over tables, cache and rate limiter, with every early reply |
| Replies.EarlyReplies | src/simple-dnsd/core/engine.cpp:207-233 | what is answered before a zone is looked at: code 5 over the rate, then 0 for a notification, 4 for an unknown opcode, 1 for no question; such replies carry the questions and no record, and change no zone and no cache entry |
| Replies.QueriesAreRouted | src/simple-dnsd/core/engine.cpp:234-239 | queries for types 251 and 252 are transfers and leave the state alone, all others are looked up in cache and zones |
| CacheRuns.HitAgrees | src/simple-dnsd/core/engine.cpp:241-258 | an entry under the key of a query for a name that survives decodes to a message that agrees with a fresh answer |
| CacheRuns.StepKeepsFresh | src/simple-dnsd/core/engine.cpp:207-277 | every call of handle and every zone refresh keeps the entry under a key equal to a fresh answer on the current records, if the queries under that key ask for names that survive; queries under other keys may be anything |
| PlainAnswers.SendableAnswer | src/simple-dnsd/core/engine.cpp:279-382 | whatever name of labels of 1 to 63 bytes is asked, a zone of plain records with at most 181 of one owner and type gives an answer that can be put on the wire and decodes |
| AnswerLimits.SetLimitExactly | src/simple-dnsd/core/engine.cpp:279-382 | 181 is the exact limit: with sets of 182 records there is a zone whose glue overflows the count of its section |
| CacheRuns.CacheIsTransparent | src/simple-dnsd/core/engine.cpp:241-277 | after every run of calls and refreshes the reply to the next query, cached or not, has the id, code, authority bit, answers, authority and additional records that answerQuery gives on the current records, names up to case; only the queries that share its key are asked to be for names that survive their text, in zones of plain records |
| CacheHits.HitEchoes | src/simple-dnsd/core/engine.cpp:241-258 | header and questions of a hit on the entry of a name that survives are those of an answer of its own if and only if the query that filled the entry had the same RD bit and the same questions |
| CacheHits.SharedKeyExactly | src/simple-dnsd/core/engine.cpp:241-277 | of two queries under one key, the first for any name of labels of 1 to 63 bytes, the second gets what answerQuery says on all tables of plain records and at every later time, with any configured ttl, if and only if the cache has no room at all, or the two names differ in case at most and survive their text |
| CacheHits.DottedHidesPair | src/simple-dnsd/core/engine.cpp:241-277 | after a question for the one label a.b, the existing name a.b is answered with a name error, whatever the configured ttl |
| CacheHits.DottedLabelSharesKey | src/simple-dnsd/core/engine.cpp:241-244 | a label with a dot inside has the key of the two labels that the dot would divide, and is another name |
| CacheRuns.CacheStaysBounded | src/simple-dnsd/core/engine.cpp:82-94 | over every run the cache holds at most its configured number of entries |
| Udp.HandleUdpQuery | src/simple-dnsd/core/server.cpp:97-118 | decode, handle, encode within the limit of the query |
| Udp.UdpReplyFits | src/simple-dnsd/core/server.cpp:107-118 | a reply is cut if and only if it has more than 512 bytes without EDNS, or more than the query or the server allows with it, unless one of them says zero; else it is sent whole; what is cut decodes to the same questions with TC and no records, if the first name of the query survives, its other names are plain, and the cache is fresh for its key, as it is after every run |
| Serials.SerialIsSet | src/simple-dnsd/zone/zone.cpp:426-457 | setSoaSerial on a well-formed SOA puts the serial into text and rdata alike and changes no other word; soaSerial reads it back |
| Engine.AuthoritativeEngine.HandleUpdate | src/simple-dnsd/core/engine.cpp:445-503 | each refusal in order, otherwise the transaction of the update section with the bumped serial, and the cache emptied |
| Engine.AuthoritativeEngine.QueueUpdates | src/simple-dnsd/core/engine.cpp:475-487 | class ANY without rdata deletes a name or record set, class NONE the whole record set, anything else is added |
| UpdateEffects.UpdateExactly | src/simple-dnsd/core/engine.cpp:475-495 | an update that does not throw leaves, in order, exactly the old records that no update record takes by class ANY without rdata (type ANY or the same type) or by class NONE (the same type), and behind them exactly the other update records, in order and with missing rdata filled in; only an SOA of the zone may be renumbered |
| Replies.UpdateIsSeen | src/simple-dnsd/core/engine.cpp:445-503 | an update without a question, zone, permission or valid TSIG is turned away with code 1, 9, 5 or 9 and changes nothing; otherwise the cache is emptied and every later search sees the zone of the update with the updated records, and every other zone as before |
| Updates.UpdateBumps | src/simple-dnsd/core/engine.cpp:475-495 | one update that spares the apex SOA adds one to its serial, and does not throw if its adds carry rdata |
| Updates.SerialAfterRun | src/simple-dnsd/core/engine.cpp:475-495 | after k updates that spare the one well-formed apex SOA its serial is s0 + k modulo 2^32, in text and rdata, and greater than s0 in the sense of section 3.2 of RFC 1982 for 0 < k < 2^31 |
| Updates.RunSucceeds | src/simple-dnsd/core/engine.cpp:475-495 | such runs do not throw when every added record carries rdata |
| Transfer.HandleAxfr | src/simple-dnsd/core/engine.cpp:384-443 | each refusal in order, otherwise the last SOA, everything that is no SOA, and the SOA again |
| Replies.TransferIffAllowed | src/simple-dnsd/core/engine.cpp:384-443 | a transfer over UDP or without a question gets code 1, one without a zone of that name or for a peer that is neither listed nor signs 5, one whose TSIG does not verify 9, and none of them a record; otherwise there are answers if and only if the SOA has rdata or text, and code 2 without |
| Transfer.Receive | src/simple-dnsd/core/server.cpp:226-241 | reads framed messages until an SOA stands at both ends, the stream ends, or a message is refused |
| Transfer.RefreshZone | src/simple-dnsd/core/server.cpp:242-259 | deletes every name there is and adds all that came but the last record; fewer than two records change nothing |
| Streams.ReceivedInOrder | src/simple-dnsd/core/server.cpp:226-241 | from a stream of messages behind their lengths the receiver collects all answers in order, up to the first message that brings the closing SOA or to the end; what stands behind is not read |
| Streams.RefreshedInOrder | src/simple-dnsd/core/server.cpp:226-259 | a refresh from such a stream leaves exactly what came without the closing record, in order, whatever the zone held; fewer than two records change nothing |
| Replication.TransferIsPermutation | src/simple-dnsd/core/engine.cpp:420-442 | the transferred list without its closing SOA is a permutation of the zone if and only if the zone has one SOA; its length is one more than that of the zone less the number of SOAs |
| Replication.NothingLeft | src/simple-dnsd/core/server.cpp:251-255 | deleting the name of every existing record leaves nothing |
| Replication.FrameRead | src/simple-dnsd/utils/net.cpp:304-324 | of a framed message of any size the receiver takes as many bytes as the size modulo 65536, and refuses none or more than it accepts |
| MessagePrefix.PrefixDecodes | src/simple-dnsd/protocol/dns.cpp:524-596 | what decodes from a prefix decodes in the same way from the whole input, and reading ends inside the prefix |
| MessagePrefix.CutWireIsRefused | src/simple-dnsd/protocol/dns.cpp:451-596 | no strict prefix of the wire form of an encodable message decodes |
| Replication.PullReplicates | src/simple-dnsd/core/server.cpp:206-260 | a pull leaves a permutation of the zone or not by its number of SOAs and by its records without rdata, and leaves everything as it was if the SOA has neither rdata nor text or the reply is too large for the receiver or for its two length bytes; pulling again does the same |
| Replication.TravelsIff | src/simple-dnsd/core/server.cpp:242-259 | a record is stored as it arrives if and only if it has rdata or filling in its missing rdata leaves it empty |
| Replication.ReplicationExactly | src/simple-dnsd/core/server.cpp:206-260 | over the wire, a pull leaves the secondary with a permutation of the primary's records, whatever it held, if and only if the primary has one SOA with rdata or text, every record travels, and the reply has at most 65535 bytes and no more than the secondary accepts |
| ZoneText.Tokenize | src/simple-dnsd/zone/zone.cpp:55-78 | white space outside quotes separates tokens, quotes stay in them |
| ZoneText.StripComments | src/simple-dnsd/zone/zone.cpp:40-53 | cuts at the first semicolon outside quotes |
| ZoneText.FlattenParens | src/simple-dnsd/zone/zone.cpp:80-107 | parentheses outside quotes become spaces, and so do newlines between them |
| ZoneSyntax.CommentIsIgnored | src/simple-dnsd/zone/zone.cpp:40-53 | a comment behind a clean line means nothing: the file gives the same result without it |
| ZoneSyntax.GroupIsOneLine | src/simple-dnsd/zone/zone.cpp:80-107 | a group in parentheses is one line: the file gives the same result with blanks in place of the parentheses and of the newlines between them |
| ZoneText.ParseZoneText | src/simple-dnsd/zone/zone.cpp:128-251 | the main loop over lines with origin, last owner and ttl as state, and every failure of a line |
| ZoneHosts.LineSays | src/simple-dnsd/zone/zone.cpp:186-247 | a line with any columns, exactly: owner, ttl, class and ttl again are each optional; the record has the owner completed with the origin or else the last one, the later ttl or else the current one, and the content word by word with every relative host put under the origin |
| ZoneHosts.RelativeHost | src/simple-dnsd/zone/zone.cpp:225-242 | in NS, CNAME, PTR, MX, SRV and SOA lines a relative host gives the same as the absolute text of that name under the origin |
| ZoneHosts.AtIsOrigin | src/simple-dnsd/zone/zone.cpp:225-242 | @ as the first word of such a content gives the same as the origin |
| ZoneHosts.NameLine | src/simple-dnsd/zone/zone.cpp:186-247 | an NS, CNAME or PTR line with a relative host adds exactly the record with the uncompressed form of the host under the origin |
| ZoneHosts.MxLine | src/simple-dnsd/zone/zone.cpp:186-247 | an MX line with a relative exchange adds exactly the record with the priority and the exchange under the origin |
| ZoneHosts.AtExchangeIsLabel | src/simple-dnsd/zone/zone.cpp:225-242 | @ as a mail exchange is no origin: the record is for a host of the one label @ |
| ZoneHosts.OriginGiven | src/simple-dnsd/zone/zone.cpp:149-156 | $ORIGIN gives the origin of the lines behind it, itself completed with the one before |
| ZoneHosts.TtlGiven | src/simple-dnsd/zone/zone.cpp:157-164 | $TTL gives the ttl of the lines behind it that have none |
| ZoneText.WriteZoneText | src/simple-dnsd/zone/zone.cpp:273-287 | two directives, then one line for each record with its relative owner |
| ZoneTextRoundTrip.FirstLine | src/simple-dnsd/zone/zone.cpp:55-107 | a line with balanced quotes and no comment or parenthesis outside them is neither cut nor flattened |
| Rdata.NameIsIrrelevant | src/simple-dnsd/protocol/dns.cpp:653-797 | the conversion of text does not look at the owner name |
| ZoneTextRoundTrip.RecordParsed | src/simple-dnsd/zone/zone.cpp:186-247 | the line of a record whose text says all of it, under a safe owner, adds exactly that record |
| ZoneOwners.OwnerComesBackIff | src/simple-dnsd/zone/zone.cpp:186-247 | one line, exactly: it adds the record and nothing else if and only if its owner column is safe: not a label @, no ttl, no class, no type and no directive |
| ZoneOwners.TtlOrClassFails | src/simple-dnsd/zone/zone.cpp:186-217 | an owner column that reads as a ttl or a class makes the whole file fail |
| ZoneOwners.TypeOwnerMisleads | src/simple-dnsd/zone/zone.cpp:186-247 | an owner column that reads as a type either fails or adds a record that is not the one written |
| ZoneOwners.MasterFileRoundTrip | src/simple-dnsd/zone/zone.cpp:128-287 | parsing what was written succeeds, whatever origin and ttl the parser starts with, and returns the same records in the same order, owner names up to case, if and only if every owner column is safe |
| ZoneOwners.UnsafeHosts | src/simple-dnsd/zone/zone.cpp:186-217 | the hosts ns, in and 10 are unsafe, the host ns.sub is safe |
| ZoneOwners.NsHostIsLost | src/simple-dnsd/zone/zone.cpp:128-287 | the file of a zone with the one host ns does not give its record back |
| ZoneRdata.RdataZoneRoundTrip | src/simple-dnsd/zone/zone.cpp:128-287 | a zone kept as rdata alone, of every type the server knows, of names and texts that can stand in a file, comes back from its master file if and only if every owner column is safe |

## Left out

- Sockets, threads, polling, worker limits, privilege drop, logging, statistics, the REST API and the command-line tools.
- Interleavings of queries with updates: each call of `handle` and each zone refresh is one atomic step. The code holds no lock between computing an answer and storing it in the cache.
- The choice of which zones to refresh and how to reach their masters (`src/simple-dnsd/core/server.cpp:206-224`): a refresh starts from the bytes that the master sent.
- Access lists and the lookup of TSIG keys by name: their results enter as the two booleans of `Gate`.
- notifySecondaries and the continuous export after an update: they send and write, and change no zone.
- SQL drivers, SQL text and the gsql transaction: the gsql searches are modelled over rows selected by exact name. Nothing is said about gsql `nameExists`, where LIKE treats an underscore as a wildcard.
- ZoneText.ParseZoneText: `$INCLUDE` ends the parse with a failure of its own, because it reads a file, and an error carries no line number.
- Files, named.conf and the persistence of the bind-file backend.
- The bind-file searches: they repeat those of the memory backend, except that their lookup does not skip disabled records.
- checkZone and rectifyZone: one reports data outside the zone and a missing SOA or NS at the apex, the other fills in missing rdata or text record by record; only the command-line tools call them.
- The order in which std::map lists zones: `MemoryBackends.MemoryBackend.FindZone` and `ListZones` are proved for every order.
- Deleting a zone while a transaction on it is open, which leaves the source with a dangling pointer: `Commit` requires the zone to be there.
- The integer width of names, sections and buffers in memory: only the wire fields, ttl values, serials and the base64 accumulator wrap around.
- MessageRoundTrip.RoundTrip: asks for plain names of at most 20 labels, because longer or escaped ones do not come back; `MessageLimits.TwentyLabels` gives the exact label limit over all plain messages, and `FirstNames.FirstMessageArrives` says what becomes of any other name in the first question. Which messages with several names that are not plain come back is not said.
- CacheHits.SharedKeyExactly: labels of more than 63 bytes in the first question, which re-parsing can build from shorter ones and which cannot be written again, are not covered, nor are names that are not plain in further questions.
- Replication.PullReplicates: records are compared by what the wire carries, so a disabled record arrives enabled; the records are asked to have plain names of at most 20 labels and to number fewer than 65535. Beyond that the count in the header wraps around, and the secondary goes on to read frames out of the middle of the cut message, of which nothing is said.
- Replication.ReplicationExactly: the same two conditions on names and number.
- CacheRuns.CacheIsTransparent: the queries under the key of the last one are asked to be for names that survive, because `CacheHits.SharedKeyExactly` shows that for others the reply can be wrong; their zones are asked to have plain records, with at most 181 of one owner and type, because `AnswerLimits.SetLimitExactly` shows that beyond that a section can overflow its count.
- Transactions.NumberedAlike: where the renumbering of some SOA throws, what the two transactions leave is not compared.
- ZoneOwners.MasterFileRoundTrip: records must be of class IN and enabled, since the file does not carry class or flags, and their text must convert to their rdata; `ZoneRdata.RdataZoneRoundTrip` derives this from the rdata, where A and AAAA rdata must be read back from what the address printer wrote.
