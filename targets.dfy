/** What the loop of parseScopes makes of one target line (main.go:686-696), and
    removePortFromHost (main.go:884-890). */
module Targets {
  import opened Wrappers
  import opened Text
  import opened Net

  /** removePortFromHost: delete the first occurrence of Port() from Host, then the first ':'.
      Deleting never lengthens the host. */
  function RemovePortFromHost(u: Url): (r: string)
    ensures |r| <= |u.host|
  {
    ReplaceFirst(ReplaceFirst(u.host, u.port, ""), ":", "")
  }

  /** The URL the loop works with: the line as is, or, when that fails or has no host, the
      line behind an "https://" prefix (main.go:688-693). None is the nil URL of a failed
      second parse. */
  function ParseTarget(lib: NetLib, line: string): Option<Url> {
    var first := lib.parseUrl(line);
    if first.None? || first.value.host == "" then lib.parseUrl("https://" + line) else first
  }

  /** A target the loop goes on to match: its line, URL, port-stripped host and the result
      of net.ParseIP on that host (main.go:695-696). */
  datatype Target = Target(line: string, url: Url, portless: string, ip: Option<Ip>)

  function MakeTarget(lib: NetLib, line: string, u: Url): Target {
    var portless := RemovePortFromHost(u);
    Target(line, u, portless, lib.parseIp(portless))
  }

  lemma {:induction false} CharNotInfix(s: string, c: char)
    requires c !in s
    ensures !IsInfix([c], s) && Index(s, [c]) == -1
    decreases |s|
  {
    if s != [] {
      assert !HasPrefix(s, [c]) by { assert s[0] in s; }
      CharNotInfix(s[1..], c);
    }
  }

  /** In "name:port", the port does not start before the colon's successor unless it
      occurs in the name or holds a colon. */
  lemma PortNotBeforeColon(name: string, port: string, k: nat)
    requires ':' !in port && !IsInfix(port, name) && k <= |name|
    ensures !HasPrefix((name + ":" + port)[k..], port)
  {
    var host := name + ":" + port;
    if k + |port| <= |name| {
      if HasPrefix(host[k..], port) {
        assert name[k..][..|port|] == host[k..][..|port|];
        InfixAt(port, name, k);
      }
    } else {
      // a start that runs past the name would put the colon inside the port
      var j := |name| - k;
      assert host[k..][j] == ':' != port[j];
    }
  }

  /** Deleting the first ':' of "name:" gives the name when it has no colon. */
  lemma DropTrailingColon(name: string)
    requires ':' !in name
    ensures ReplaceFirst(name + ":", ":", "") == name
  {
    assert HasPrefix(":", ":");
    IndexAfter(name, ":", ":");
    assert (name + ":")[..|name|] == name;
  }

  /** "name:port" loses exactly ":port" when the port occurs nowhere in the name and
      neither part holds a colon. */
  lemma RemovePortStripsPort(name: string, port: string, hostname: string)
    requires port != [] && ':' !in name && ':' !in port && !IsInfix(port, name)
    ensures RemovePortFromHost(Url(name + ":" + port, port, hostname)) == name
  {
    var withColon := name + ":";
    var host := withColon + port;
    var m := |withColon|;
    forall k | 0 <= k < m
      ensures !HasPrefix(host[k..], port)
    {
      PortNotBeforeColon(name, port, k);
    }
    assert host[m..] == port;
    IndexIs(host, port, m);
    assert host[..m] == withColon && host[m + |port|..] == [];
    assert ReplaceFirst(host, port, "") == withColon;
    DropTrailingColon(name);
  }

  /** A host without a port and without ':' is returned unchanged. */
  lemma RemovePortKeepsPlainHost(host: string, hostname: string)
    requires ':' !in host
    ensures RemovePortFromHost(Url(host, "", hostname)) == host
  {
    assert HasPrefix(host, "");
    assert ReplaceFirst(host, "", "") == host;
    CharNotInfix(host, ':');
  }

  /** main_test.go:148-153: "https://example.com:8080/path?query=123" gives "example.com". */
  lemma RemovePortExample(name: string, port: string)
    requires name == "example.com" && port == "8080"
    ensures RemovePortFromHost(Url(name + ":" + port, port, name)) == name
  {
    assert port[0] !in name;
    NotInfixFirstAbsent(port, name);
    RemovePortStripsPort(name, port, name);
  }

  /** The port is deleted where it first occurs, which need not be after the colon. */
  lemma RemovePortHitsLeadingDigits(name: string, port: string, hostname: string)
    requires port != [] && ':' !in name && ':' !in port
    ensures RemovePortFromHost(Url(port + name + ":" + port, port, hostname)) == name + port
  {
    var host := port + name + ":" + port;
    var rest := name + (":" + port);
    assert ReplaceFirst(host, port, "") == rest by {
      assert HasPrefix(host, port) by { assert host[..|port|] == port; }
      assert host[|port|..] == rest;
    }
    assert ReplaceFirst(rest, ":", "") == name + port by {
      assert HasPrefix(":" + port, ":");
      IndexAfter(name, ":" + port, ":");
      assert rest[..|name|] == name && rest[|name| + 1..] == port;
    }
  }

  /** "8080.example.com:8080" becomes ".example.com8080". */
  lemma RemovePortHitsHostDigits()
    ensures RemovePortFromHost(Url("8080.example.com:8080", "8080", "8080.example.com")) == ".example.com8080"
  {
    assert "8080.example.com:8080" == "8080" + ".example.com" + ":" + "8080";
    assert ".example.com8080" == ".example.com" + "8080";
    RemovePortHitsLeadingDigits(".example.com", "8080", "8080.example.com");
  }
}
