/** The results of Go's net and net/url parsers, which the engine consumes but does not
    re-implement. A run is parameterised by a `NetLib`: the parse functions are inputs, and
    every property proved about the engine holds whatever they return. */
module Net {
  import opened Wrappers

  /** What net.IP.String() prints for a non-nil address; a nil address prints "<nil>",
      which no parsed address ever does. */
  type IpText = s: string | s != "<nil>" witness "0.0.0.0"

  /** A parsed address: its printed form, and its bits in the form IPNet.Contains compares
      (4 bytes for IPv4 and IPv4-mapped addresses, 16 bytes otherwise). */
  datatype Ip = Ip(text: IpText, bits: seq<bool>)

  /** A parsed CIDR range: the network bits and the prefix length. */
  datatype Cidr = Cidr(network: seq<bool>, prefixLen: nat)

  /** The parts of a *url.URL the engine reads: Host (with any port), Port(), Hostname(). */
  datatype Url = Url(host: string, port: string, hostname: string)

  /** url.Parse, net.ParseIP and net.ParseCIDR; None is a parse error / a nil result. */
  datatype NetLib = NetLib(
    parseUrl: string -> Option<Url>,
    parseIp: string -> Option<Ip>,
    parseCidr: string -> Option<Cidr>)

  /** net.IP.String(), for a possibly nil address. */
  function IpString(ip: Option<Ip>): (r: string)
    ensures r == "<nil>" <==> ip == None
  {
    match ip
    case None => "<nil>"
    case Some(a) => a.text
  }

  /** (*net.IPNet).Contains: a nil address, or one of the other family, is never contained;
      otherwise the first prefixLen bits must agree with the network. */
  predicate CidrContains(c: Cidr, ip: Option<Ip>) {
    match ip
    case None => false
    case Some(a) =>
      |a.bits| == |c.network| && c.prefixLen <= |c.network|
      && a.bits[..c.prefixLen] == c.network[..c.prefixLen]
  }
}
