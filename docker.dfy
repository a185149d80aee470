/**
 * The field validators of the container definition used by the integration
 * test tooling: the image must be `name:tag`, and every exposed container
 * port must be `digits/protocol`. The Docker client itself is not modelled.
 */
module Docker {
  import opened Wrappers
  import opened Text

  /** Occurrences of `c` in `s`. */
  function Count(s: string, c: char): nat
  {
    if s == [] then 0 else (if s[0] == c then 1 else 0) + Count(s[1..], c)
  }

  /** `str.split(c)`: the pieces between occurrences of `c`, empty pieces included. */
  function Split(s: string, c: char): (parts: seq<string>)
    ensures |parts| >= 1
    ensures forall i :: 0 <= i < |parts| ==> c !in parts[i]
  {
    if s == [] then [""]
    else if s[0] == c then [""] + Split(s[1..], c)
    else
      var rest := Split(s[1..], c);
      [[s[0]] + rest[0]] + rest[1..]
  }

  /** `c.join(parts)`. */
  function Join(parts: seq<string>, c: char): string
    requires |parts| >= 1
  {
    if |parts| == 1 then parts[0] else parts[0] + [c] + Join(parts[1..], c)
  }

  /** Splitting gives one piece more than there are separators, and joining the pieces gives the string back. */
  lemma {:induction false} SplitJoin(s: string, c: char)
    ensures |Split(s, c)| == Count(s, c) + 1
    ensures Join(Split(s, c), c) == s
  {
    if s != [] {
      SplitJoin(s[1..], c);
      var rest := Split(s[1..], c);
      if s[0] != c {
        if |rest| > 1 {
          assert ([[s[0]] + rest[0]] + rest[1..])[1..] == rest[1..];
          assert Join(rest, c) == rest[0] + [c] + Join(rest[1..], c);
        }
        assert s == [s[0]] + s[1..];
      } else {
        assert ([""] + rest)[1..] == rest;
        assert s == [c] + s[1..];
      }
    }
  }

  /** Joining pieces free of the separator and splitting again gives the pieces back. */
  lemma {:induction false} JoinSplit(parts: seq<string>, c: char)
    requires |parts| >= 1 && forall i :: 0 <= i < |parts| ==> c !in parts[i]
    ensures Split(Join(parts, c), c) == parts
  {
    if |parts| == 1 {
      SplitFree(parts[0], c);
    } else {
      JoinSplit(parts[1..], c);
      SplitPrefix(parts[0], Join(parts[1..], c), c);
      assert [parts[0]] + parts[1..] == parts;
    }
  }

  /** A string without the separator is a single piece. */
  lemma {:induction false} SplitFree(s: string, c: char)
    requires c !in s
    ensures Split(s, c) == [s]
  {
    if s != [] {
      SplitFree(s[1..], c);
      assert [s[0]] + s[1..] == s;
    }
  }

  /** A separator-free head is the first piece, and the rest splits as before. */
  lemma {:induction false} SplitPrefix(head: string, tail: string, c: char)
    requires c !in head
    ensures Split(head + [c] + tail, c) == [head] + Split(tail, c)
  {
    if head == [] {
      assert ([] + [c] + tail)[1..] == tail;
    } else {
      SplitPrefix(head[1..], tail, c);
      assert (head + [c] + tail)[1..] == head[1..] + [c] + tail;
      assert [head[0]] + head[1..] == head;
    }
  }

  datatype ContainerError =
    | EmptyImage
    | MissingTag
    | EmptyTag
    /** The `image, tag = value.split(":")` unpacking fails: more than one `:`. */
    | TooManyValuesToUnpack
    | NotEnoughValuesToUnpack
    | PortNotInteger
    | InvalidProtocol

  /** `validate_image`, the checks in the order of the source. */
  function ValidateImage(value: string): (r: Result<string, ContainerError>)
    ensures r.Ok? ==> r.value == value
  {
    if value == [] then Err(EmptyImage)
    else if ':' !in value then Err(MissingTag)
    else
      var parts := Split(value, ':');
      if |parts| > 2 then Err(TooManyValuesToUnpack)
      else if |parts| < 2 then Err(NotEnoughValuesToUnpack)
      else if parts[0] == [] then Err(EmptyImage)
      else if parts[1] == [] then Err(EmptyTag)
      else Ok(value)
  }

  /** An image is accepted exactly when it is `name:tag` with a non-empty name and tag and no further `:`. */
  lemma ValidateImageIff(value: string)
    ensures ValidateImage(value).Ok? <==>
      exists name, tag :: value == name + ":" + tag && name != [] && tag != [] && ':' !in name && ':' !in tag
  {
    SplitJoin(value, ':');
    var parts := Split(value, ':');
    if ValidateImage(value).Ok? {
      assert Join(parts, ':') == parts[0] + ":" + parts[1];
      assert value == parts[0] + ":" + parts[1];
    }
    if exists name, tag :: value == name + ":" + tag && name != [] && tag != [] && ':' !in name && ':' !in tag {
      var name, tag :| value == name + ":" + tag && name != [] && tag != [] && ':' !in name && ':' !in tag;
      JoinSplit([name, tag], ':');
      assert Join([name, tag], ':') == name + ":" + tag;
      assert value[|name|] == ':';
    }
  }

  lemma ValidateImageEmptyExamples()
    ensures ValidateImage("") == Err(EmptyImage)
    ensures ValidateImage("nginx") == Err(MissingTag)
  {
    assert "nginx"[0] == 'n';
  }

  lemma ValidateImageEmptyNameExample()
    ensures ValidateImage(":latest") == Err(EmptyImage)
  {
    SplitFree("latest", ':');
    assert ":latest"[1..] == "latest";
  }

  lemma ValidateImageEmptyTagExample()
    ensures ValidateImage("naginx:") == Err(EmptyTag)
  {
    assert "naginx" + ":" + "" == "naginx:";
    ImageOf("naginx", "");
  }

  lemma ValidateImageAcceptedExample()
    ensures ValidateImage("nginx:latest") == Ok("nginx:latest")
  {
    assert "nginx" + ":" + "latest" == "nginx:latest";
    ImageOf("nginx", "latest");
  }

  /** A registry with a port, and so a second `:`, is refused by the unpacking. */
  lemma ValidateImageRegistryPortExample()
    ensures ValidateImage("localhost:5000/nginx:latest") == Err(TooManyValuesToUnpack)
  {
    var tail := "5000/nginx" + ":" + "latest";
    assert tail == "5000/nginx:latest";
    assert "localhost" + ":" + tail == "localhost:5000/nginx:latest";
    ImageOfThree("localhost", "5000/nginx", "latest");
  }

  /** A value with exactly one `:` is judged by its name, then by its tag. */
  lemma ImageOf(name: string, tag: string)
    requires ':' !in name && ':' !in tag
    ensures ValidateImage(name + ":" + tag) ==
      if name == [] then Err(EmptyImage) else if tag == [] then Err(EmptyTag) else Ok(name + ":" + tag)
  {
    SplitFree(tag, ':');
    SplitPrefix(name, tag, ':');
    assert (name + ":" + tag)[|name|] == ':';
  }

  /** A value with two `:` has too many pieces to unpack. */
  lemma ImageOfThree(a: string, b: string, c: string)
    requires ':' !in a && ':' !in b && ':' !in c
    ensures ValidateImage(a + ":" + (b + ":" + c)) == Err(TooManyValuesToUnpack)
  {
    SplitFree(c, ':');
    SplitPrefix(b, c, ':');
    SplitPrefix(a, b + ":" + c, ':');
    assert (a + ":" + (b + ":" + c))[|a|] == ':';
  }

  /** The host side of a port mapping: a port, or an interface and a port. */
  datatype HostPort = Port(port: int) | Bound(hostIp: string, port: int)

  /** The protocols `validate_ports` lists, with `upd` where Docker's protocol is `udp`. */
  const PortProtocolsAsWritten: set<string> := {"tcp", "upd", "sctp"}

  /** The protocols Docker accepts for a container port. */
  const PortProtocols: set<string> := {"tcp", "udp", "sctp"}

  predicate ValidProtocol(p: string)
  {
    p in PortProtocols
  }

  /** The check of one container port definition against a list of protocols. */
  function CheckPortKey(key: string, protocols: set<string>): (r: Option<ContainerError>)
  {
    var parts := Split(key, '/');
    if |parts| > 2 then Some(TooManyValuesToUnpack)
    else if |parts| < 2 then Some(NotEnoughValuesToUnpack)
    else if !(parts[0] != [] && AllDigits(parts[0])) then Some(PortNotInteger)
    else if parts[1] !in protocols then Some(InvalidProtocol)
    else None
  }

  /** For protocol names without `/`, a key passes exactly when it is `digits/protocol` with a listed protocol. */
  lemma CheckPortKeyIff(key: string, protocols: set<string>)
    requires forall p :: p in protocols ==> '/' !in p
    ensures CheckPortKey(key, protocols).None? <==>
      exists port, protocol :: key == port + "/" + protocol && port != [] && AllDigits(port) && protocol in protocols
  {
    SplitJoin(key, '/');
    var parts := Split(key, '/');
    if CheckPortKey(key, protocols).None? {
      assert key == parts[0] + "/" + parts[1];
      assert parts[0] != [] && AllDigits(parts[0]) && parts[1] in protocols;
    }
    if exists port, protocol :: key == port + "/" + protocol && port != [] && AllDigits(port) && protocol in protocols {
      var port, protocol :| key == port + "/" + protocol && port != [] && AllDigits(port) && protocol in protocols;
      assert '/' !in port;
      assert '/' !in protocol;
      PortKeyOf(port, protocol, protocols);
    }
  }

  /** The check of one container port definition as written, with `upd`: it passes exactly `digits/tcp`, `digits/upd` and `digits/sctp`. */
  function ValidatePortKeyAsWritten(key: string): (r: Option<ContainerError>)
    ensures r.None? <==>
      exists port, protocol :: key == port + "/" + protocol && port != [] && AllDigits(port) && protocol in PortProtocolsAsWritten
  {
    CheckPortKeyIff(key, PortProtocolsAsWritten);
    CheckPortKey(key, PortProtocolsAsWritten)
  }

  /** The check of one container port definition, with Docker's `udp`. */
  function ValidatePortKey(key: string): (r: Option<ContainerError>)
  {
    CheckPortKey(key, PortProtocols)
  }

  /** A key is accepted exactly when it is `digits/protocol` with one `/` and a known protocol. */
  lemma ValidatePortKeyIff(key: string)
    ensures ValidatePortKey(key).None? <==>
      exists port, protocol :: key == port + "/" + protocol && port != [] && AllDigits(port) && ValidProtocol(protocol)
  {
    CheckPortKeyIff(key, PortProtocols);
    if ValidatePortKey(key).None? {
      var port, protocol :| key == port + "/" + protocol && port != [] && AllDigits(port) && protocol in PortProtocols;
      assert ValidProtocol(protocol);
    } else {
      forall port, protocol | key == port + "/" + protocol && port != [] && AllDigits(port)
        ensures !ValidProtocol(protocol)
      {
      }
    }
  }

  /** The loop of `validate_ports` against a list of protocols: the keys in order, the first bad key's error; the host side is not looked at. */
  function CheckPorts(ports: seq<(string, HostPort)>, protocols: set<string>): (r: Result<seq<(string, HostPort)>, ContainerError>)
    ensures r.Ok? ==> r.value == ports
    ensures r.Ok? <==> forall i :: 0 <= i < |ports| ==> CheckPortKey(ports[i].0, protocols).None?
  {
    if ports == [] then Ok(ports)
    else
      var e := CheckPortKey(ports[0].0, protocols);
      if e.Some? then Err(e.value)
      else
        match CheckPorts(ports[1..], protocols)
        case Err(err) => Err(err)
        case Ok(_) => Ok(ports)
  }

  /** `validate_ports` as written, with `upd`: a mapping passes exactly when every key passes the as-written check. */
  function ValidatePortsAsWritten(ports: seq<(string, HostPort)>): (r: Result<seq<(string, HostPort)>, ContainerError>)
    ensures r.Ok? ==> r.value == ports
    ensures r.Ok? <==> forall i :: 0 <= i < |ports| ==> ValidatePortKeyAsWritten(ports[i].0).None?
  {
    CheckPorts(ports, PortProtocolsAsWritten)
  }

  /** `validate_ports` with Docker's `udp`. */
  function ValidatePorts(ports: seq<(string, HostPort)>): (r: Result<seq<(string, HostPort)>, ContainerError>)
    ensures r.Ok? ==> r.value == ports
    ensures r.Ok? <==> forall i :: 0 <= i < |ports| ==> ValidatePortKey(ports[i].0).None?
  {
    CheckPorts(ports, PortProtocols)
  }

  /** As written, a mapping of the DNS port over UDP is refused; with Docker's names it passes. */
  lemma PortsUdpExample(ports: seq<(string, HostPort)>)
    requires ports == [("53/udp", Port(53))]
    ensures ValidatePortsAsWritten(ports) == Err(InvalidProtocol)
    ensures ValidatePorts(ports) == Ok(ports)
  {
    var key := ports[0].0;
    assert key == "53" + "/" + "udp";
    PortKeyOf("53", "udp", PortProtocolsAsWritten);
    assert CheckPortKey(key, PortProtocolsAsWritten) == Some(InvalidProtocol);
    PortKeyOf("53", "udp", PortProtocols);
    assert CheckPortKey(key, PortProtocols) == None;
    assert ports[1..] == [];
  }

  /** The error is that of the first key that fails. */
  lemma {:induction false} ValidatePortsFirstError(ports: seq<(string, HostPort)>, k: nat)
    requires k < |ports| && ValidatePortKey(ports[k].0).Some?
    requires forall i :: 0 <= i < k ==> ValidatePortKey(ports[i].0).None?
    ensures ValidatePorts(ports) == Err(ValidatePortKey(ports[k].0).value)
  {
    if k > 0 {
      ValidatePortsFirstError(ports[1..], k - 1);
    }
  }

  /** Two mappings with the same keys validate alike, whatever their host sides. */
  lemma {:induction false} ValidatePortsIgnoresHosts(a: seq<(string, HostPort)>, b: seq<(string, HostPort)>)
    requires |a| == |b| && forall i :: 0 <= i < |a| ==> a[i].0 == b[i].0
    ensures ValidatePorts(a).Ok? == ValidatePorts(b).Ok?
    ensures ValidatePorts(a).Err? ==> ValidatePorts(a) == ValidatePorts(b)
  {
    if a != [] {
      ValidatePortsIgnoresHosts(a[1..], b[1..]);
    }
  }

  lemma PortKeyMissingProtocolExample()
    ensures ValidatePortKey("80") == Some(NotEnoughValuesToUnpack)
  {
    SplitFree("80", '/');
  }

  lemma PortKeyUnknownProtocolExample()
    ensures ValidatePortKey("80/prot") == Some(InvalidProtocol)
  {
    assert "80" + "/" + "prot" == "80/prot";
    PortKeyOf("80", "prot", PortProtocols);
  }

  lemma PortKeyNotIntegerExample()
    ensures ValidatePortKey("eighty/tcp") == Some(PortNotInteger)
  {
    assert "eighty" + "/" + "tcp" == "eighty/tcp";
    PortKeyOf("eighty", "tcp", PortProtocols);
    assert !IsDigit("eighty"[0]);
  }

  /** As written, the protocol list has `upd`, not `udp`. */
  lemma PortKeyUdpExample()
    ensures ValidatePortKeyAsWritten("80/udp") == Some(InvalidProtocol)
    ensures ValidatePortKeyAsWritten("80/upd") == None
  {
    assert "80" + "/" + "udp" == "80/udp";
    PortKeyOf("80", "udp", PortProtocolsAsWritten);
    assert "80" + "/" + "upd" == "80/upd";
    PortKeyOf("80", "upd", PortProtocolsAsWritten);
  }

  /** With Docker's protocol names, `80/udp` is accepted and the misspelt `80/upd` is refused. */
  lemma PortKeyUdpAccepted()
    ensures ValidatePortKey("80/udp") == None
    ensures ValidatePortKey("80/upd") == Some(InvalidProtocol)
  {
    assert "80" + "/" + "udp" == "80/udp";
    PortKeyOf("80", "udp", PortProtocols);
    assert "80" + "/" + "upd" == "80/upd";
    PortKeyOf("80", "upd", PortProtocols);
  }

  /** The two forms differ only on keys whose protocol is `udp` or `upd`. */
  lemma PortKeyFormsAgree(port: string, protocol: string)
    requires '/' !in port && '/' !in protocol
    requires protocol != "udp" && protocol != "upd"
    ensures ValidatePortKeyAsWritten(port + "/" + protocol) == ValidatePortKey(port + "/" + protocol)
  {
    PortKeyOf(port, protocol, PortProtocolsAsWritten);
    PortKeyOf(port, protocol, PortProtocols);
  }

  lemma PortKeyAcceptedExample()
    ensures ValidatePortKey("5432/tcp") == None
  {
    assert "5432" + "/" + "tcp" == "5432/tcp";
    PortKeyOf("5432", "tcp", PortProtocols);
  }

  /** A key with exactly one `/` is judged by its port, then by its protocol. */
  lemma PortKeyOf(port: string, protocol: string, protocols: set<string>)
    requires '/' !in port && '/' !in protocol
    ensures CheckPortKey(port + "/" + protocol, protocols) ==
      if !(port != [] && AllDigits(port)) then Some(PortNotInteger)
      else if protocol !in protocols then Some(InvalidProtocol)
      else None
  {
    SplitFree(protocol, '/');
    SplitPrefix(port, protocol, '/');
  }
}
