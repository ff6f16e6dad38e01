/** HCloudNodeClass: spec, resolved status and conditions (api/v1alpha1). */
module NodeClassTypes {
  import opened Common

  datatype Selector = ByName(name: string) | ById(id: int)

  datatype ImageStatus = ImageStatus(id: int, name: string, architecture: string)
  datatype NetworkStatus = NetworkStatus(id: int, name: string, ipRange: string, zone: string)
  datatype FirewallStatus = FirewallStatus(id: int, name: string)
  datatype SSHKeyStatus = SSHKeyStatus(id: int, name: string, fingerprint: string)
  datatype PlacementGroupStatus = PlacementGroupStatus(id: int, name: string, kind: string, serverCount: nat)
  datatype LocationStatus = LocationStatus(name: string, zone: string)

  datatype Spec = Spec(
    image: Selector,
    replaceOnImageDrift: bool,
    locations: seq<string>,
    network: Option<Selector>,
    firewalls: seq<Selector>,
    sshKeys: seq<Selector>,
    placementGroup: Option<Selector>,
    publicIPv4: bool,
    publicIPv6: bool,
    serverLabels: map<string, string>,
    apiServerEndpoint: string,
    caCertHashes: seq<string>)

  datatype Status = Status(
    image: Option<ImageStatus>,
    network: Option<NetworkStatus>,
    firewalls: seq<FirewallStatus>,
    sshKeys: seq<SSHKeyStatus>,
    placementGroup: Option<PlacementGroupStatus>,
    locations: seq<LocationStatus>,
    apiServerEndpoint: string,
    caCertHashes: seq<string>)
}
