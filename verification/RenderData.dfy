// The records of internal/normalize/normalize.go that the templates print, and the
// decoded input records they are made from.
module RenderData {
  import opened Wrappers
  import Decimal

  // ---- decoded input ----

  // A raw JSON value read as a number: missing, an integer (null reads as zero), a
  // string, or anything else.
  datatype RawNumber = Absent | Number(value: Decimal.Int64) | Str(text: string) | Other

  datatype RawDhcp = RawDhcp(leaseTime: RawNumber, leaseFirst: RawNumber, leaseCount: RawNumber)

  datatype RawIpv4 = RawIpv4(addressing: string, dhcp: RawDhcp, subnet: string)

  // An entry of interfaces[]; ethernet lists the select-ports of each element.
  datatype RawInterface = RawInterface(
    name: string, role: string, ethernet: seq<seq<string>>, ipv4: RawIpv4, vlan: Option<Decimal.Int64>)

  // An element of nat.snat.rules[]; None for a name or an address that is missing
  // or not a string.
  datatype RawNatRule = RawNatRule(
    ruleId: RawNumber, outbound: Option<string>, source: Option<string>, translation: Option<string>)

  // Go keeps a slice of raw JSON values, 24 bytes each, in a 63-bit address space.
  const MAX_ENTRIES := Decimal.MAX_INT / 24

  type Index = i: int | 0 <= i < MAX_ENTRIES

  type RawInterfaces = s: seq<RawInterface> | |s| <= MAX_ENTRIES

  type PortMap = map<string, seq<string>>

  // ---- normalized data ----

  datatype Vif = Vif(id: Decimal.Int64, address: string, description: string, members: seq<string>)

  datatype Bridge = Bridge(name: string, address: string, description: string, members: seq<string>, vifs: seq<Vif>)

  datatype Ethernet = Ethernet(name: string, description: string)

  datatype ServiceLanInput = ServiceLanInput(
    index: Index, name: string, subnet: string, dhcp: RawDhcp, isVlan: bool, vlanId: Decimal.Int64)

  datatype InterfacesSection = InterfacesSection(
    bridges: seq<Bridge>, ethernets: seq<Ethernet>, inputs: seq<ServiceLanInput>)

  datatype NatRule = NatRule(ruleId: Decimal.Int64, outbound: string, source: string, translation: string)

  datatype ServiceLan = ServiceLan(
    name: string, lanIp: string, prefix: string, leaseSecs: int, rangeStart: string, rangeStop: string, subnetId: int)

  datatype ServiceSection = ServiceSection(lans: seq<ServiceLan>, sshEnabled: bool, sshPort: int)

  datatype Data = Data(interfaces: InterfacesSection, rules: seq<NatRule>, services: ServiceSection)
}
