/**
 The records and messages of include/simple-dnsd/protocol/dns.hpp.  Types, classes and
 codes are the numbers that stand on the wire.
 */
module Records {
  import opened Text
  import opened DnsNames
  import opened NameCodec

  const TYPE_A: U16 := 1
  const TYPE_NS: U16 := 2
  const TYPE_CNAME: U16 := 5
  const TYPE_SOA: U16 := 6
  const TYPE_PTR: U16 := 12
  const TYPE_HINFO: U16 := 13
  const TYPE_MX: U16 := 15
  const TYPE_TXT: U16 := 16
  const TYPE_AAAA: U16 := 28
  const TYPE_SRV: U16 := 33
  const TYPE_NAPTR: U16 := 35
  const TYPE_OPT: U16 := 41
  const TYPE_DS: U16 := 43
  const TYPE_RRSIG: U16 := 46
  const TYPE_NSEC: U16 := 47
  const TYPE_DNSKEY: U16 := 48
  const TYPE_TSIG: U16 := 250
  const TYPE_IXFR: U16 := 251
  const TYPE_AXFR: U16 := 252
  const TYPE_ANY: U16 := 255
  const TYPE_CAA: U16 := 257

  const CLASS_IN: U16 := 1
  const CLASS_NONE: U16 := 254
  const CLASS_ANY: U16 := 255

  const OPCODE_QUERY := 0
  const OPCODE_NOTIFY := 4
  const OPCODE_UPDATE := 5

  const NOERROR := 0
  const FORMERR := 1
  const SERVFAIL := 2
  const NXDOMAIN := 3
  const NOTIMP := 4
  const REFUSED := 5
  const NOTAUTH := 9

  /** A record: the wire fields, and the text form that backends and the engine keep beside them. */
  datatype ResourceRecord = ResourceRecord(
    name: Name, rtype: U16, rclass: U16, ttl: U32, rdata: Bytes,
    content: Str, prio: U16, disabled: bool, auth: bool)

  /** A record as decodeRr first makes it: no text, default flags. */
  function WireRecord(name: Name, rtype: U16, rclass: U16, ttl: U32, rdata: Bytes): ResourceRecord {
    ResourceRecord(name, rtype, rclass, ttl, rdata, [], 0, false, true)
  }

  datatype Question = Question(qname: Name, qtype: U16, qclass: U16)

  /** The four counts are what a decoded header said; encoding ignores them. */
  datatype Header = Header(id: U16, qr: bool, opcode: Byte, aa: bool, tc: bool, rd: bool,
                           ra: bool, ad: bool, cd: bool, rcode: Byte,
                           qdcount: U16, ancount: U16, nscount: U16, arcount: U16)

  datatype Edns = Edns(present: bool, udpSize: U16, extRcode: Byte, version: Byte, dnssecOk: bool)

  const NO_EDNS := Edns(false, 512, 0, 0, false)

  datatype Option<+T> = None | Some(value: T)

  datatype Message = Message(
    header: Header, questions: seq<Question>, answers: seq<ResourceRecord>,
    authority: seq<ResourceRecord>, additional: seq<ResourceRecord>,
    edns: Edns, tsig: Option<ResourceRecord>)

  const QUERY_HEADER := Header(0, false, OPCODE_QUERY, false, false, false, false, false, false, NOERROR,
                             0, 0, 0, 0)

  /** makeQuery. */
  function MakeQuery(qname: Name, qtype: U16, id: U16, rd: bool): Message {
    Message(QUERY_HEADER.(id := id, rd := rd), [Question(qname, qtype, CLASS_IN)], [], [], [], NO_EDNS, None)
  }

  /** makeResponse. */
  function MakeResponse(query: Message): Message {
    Message(QUERY_HEADER.(id := query.header.id, qr := true, opcode := query.header.opcode, rd := query.header.rd),
            query.questions, [], [], [], query.edns, None)
  }
}
