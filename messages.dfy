/** Every message the commands print or fail with, as a value, and the
    exact text each one renders to. */
module Messages {
  import opened Text

  datatype Message =
    | Silent
      // config dhcp_relay ... add|del
    | InvalidIp(ip: string)
    | NotVersion(ip: string, version: int)
    | NoSuchRow(vlan: string)
    | DuplicateRequest(ip: string, list: string)
    | AlreadyConfigured(ip: string, vlan: string)
    | NotConfigured(ip: string, vlan: string)
    | RelaysAdded(ips: seq<string>, vlan: string)
    | RelaysRemoved(ips: seq<string>, vlan: string)
      // config vlan add|del|proxy_arp
    | VlanIdOutOfRange(vid: int)
    | VlanAlreadyExists(vlan: string)
    | RelayConfigAlreadyExists(vlan: string)
    | NoSuchVlan(vlan: string)
    | RelayConfigBlocksDelete(vlan: string)
    | VlanHasAddresses(vlan: string)
    | VlanHasMembers(vid: int)
    | NoVlanInterface(vlan: string)
    | ProxyArpSaved
      // config vlan member add|del
    | UnknownAlias(alias: string)
    | MirrorDestination(port: string)
    | AlreadyMember(port: string, vlan: string)
    | NoSuchPort(port: string)
    | RouterInterface(port: string)
    | PortChannelMember(port: string)
    | AlreadyUntagged(port: string)
    | NotMember(port: string, vlan: string)
      // config vlan dhcp_relay add|del
    | DestinationAlreadyConfigured(ip: string, vlan: string)
    | DestinationNotConfigured(ip: string, vlan: string)
    | DestinationAdded(ip: string, vlan: string)
    | DestinationRemoved(ip: string, vlan: string)
      // sonic-clear dhcp6relay_counters
    | CounterCleared(intf: string)
    | CountersCleared
      // Python's ValueError from list.remove
    | RemoveMissing
      // Python's KeyError from `del` of a dictionary key that is not there
    | DeleteMissing(key: string)
  {
    /** The text printed, or passed to the usage-error exit. */
    function Render(): string
    {
      match this
      case Silent => ""
      case InvalidIp(ip) => ip + " is invalid IP address"
      case NotVersion(ip, version) => ip + " is not IPv" + IntToString(version) + " address"
      case NoSuchRow(vlan) => vlan + " doesn't exist"
      case DuplicateRequest(ip, list) => "Error: Find duplicate DHCP relay ip " + ip + " in " + list + " list"
      case AlreadyConfigured(ip, vlan) => ip + " is already a DHCP relay for " + vlan
      case NotConfigured(ip, vlan) => ip + " is not a DHCP relay for " + vlan
      case RelaysAdded(ips, vlan) => "Added DHCP relay address [" + Join(ips, ",") + "] to " + vlan
      case RelaysRemoved(ips, vlan) => "Removed DHCP relay address [" + Join(ips, ",") + "] from " + vlan
      case VlanIdOutOfRange(vid) => "Invalid VLAN ID " + IntToString(vid) + " (1-4094)"
      case VlanAlreadyExists(vlan) => vlan + " already exists"
      case RelayConfigAlreadyExists(vlan) => "DHCPv6 relay config for " + vlan + " already exists"
      case NoSuchVlan(vlan) => vlan + " does not exist"
      case RelayConfigBlocksDelete(vlan) => "Can't delete " + vlan + " because related DHCPv6 Relay config is exist"
      case VlanHasAddresses(vlan) => vlan + " can not be removed. First remove IP addresses assigned to this VLAN"
      case VlanHasMembers(vid) => "VLAN ID " + IntToString(vid) + " can not be removed. First remove all members assigned to this VLAN."
      case NoVlanInterface(vlan) => "Interface " + vlan + " does not exist"
      case ProxyArpSaved => "Proxy ARP setting saved to ConfigDB"
      case UnknownAlias(alias) => "cannot find port name for alias " + alias
      case MirrorDestination(port) => port + " is configured as mirror destination port"
      case AlreadyMember(port, vlan) => port + " is already a member of " + vlan
      case NoSuchPort(port) => port + " does not exist"
      case RouterInterface(port) => port + " is a router interface!"
      case PortChannelMember(port) => port + " is part of portchannel!"
      case AlreadyUntagged(port) => port + " is already untagged member!"
      case NotMember(port, vlan) => port + " is not a member of " + vlan
      case DestinationAlreadyConfigured(ip, vlan) => ip + " is already a DHCP relay destination for " + vlan
      case DestinationNotConfigured(ip, vlan) => ip + " is not a DHCP relay destination for " + vlan
      case DestinationAdded(ip, vlan) => "Added DHCP relay destination address " + ip + " to " + vlan
      case DestinationRemoved(ip, vlan) => "Removed DHCP relay destination address " + ip + " from " + vlan
      case CounterCleared(intf) => "Cleared DHCPv6 Relay Counter " + intf
      case CountersCleared => "Cleared DHCPv6 Relay Counters"
      case RemoveMissing => "list.remove(x): x not in list"
      case DeleteMissing(key) => "'" + key + "'"
    }
  }
}
