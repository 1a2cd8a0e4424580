/** DNS resource records and messages, as far as the client and the router look at them. */
module DnsRecords {

  const U32: int := 0x1_0000_0000

  const TYPE_A := 1
  const TYPE_CNAME := 5
  const TYPE_AAAA := 28
  const TYPE_OPT := 41

  const RCODE_SUCCESS := 0

  /** The Go type of a record; the type in its header is kept beside it. */
  datatype Kind = A | AAAA | CNAME(target: string) | SOA(minimum: nat) | OPT | Other

  /** `data` tells apart records that agree in everything else the code looks at. */
  datatype RR = RR(kind: Kind, name: string, rrtype: nat, ttl: nat, data: nat)

  datatype Msg = Msg(rcode: nat, answer: seq<RR>, ns: seq<RR>, extra: seq<RR>)
}
