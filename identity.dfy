/** The certificate template of `GenerateCertificate` (pkg/encryption/generate_cert.go):
    the receiver's ephemeral self-signed identity is valid for 365 days from
    now, has a random serial number below 2^128, and takes its Subject
    Alternative Names (section 4.2.1.6 of RFC 5280) from the host name split on
    commas, each part going to the IP-address list when it parses as an IP
    address and to the DNS-name list otherwise. */
module Identity {
  import opened Bytes

  const Comma: Byte := 0x2C

  // ---------------------------------------------------------------------------
  // strings.Split and its inverse
  // ---------------------------------------------------------------------------

  /** `strings.Split(s, sep)` for a one-byte separator: the pieces between the
      separators, in order; the empty string gives one empty piece. */
  function Split(s: GoString, sep: Byte): (parts: seq<GoString>)
    ensures |parts| >= 1
    ensures forall k | 0 <= k < |parts| :: sep !in parts[k]
  {
    if s == [] then [[]]
    else
      var rest := Split(s[1..], sep);
      if s[0] == sep then [[]] + rest
      else [[s[0]] + rest[0]] + rest[1..]
  }

  /** `strings.Join(parts, sep)`. */
  function Join(parts: seq<GoString>, sep: Byte): GoString
    requires |parts| >= 1
  {
    if |parts| == 1 then parts[0] else parts[0] + [sep] + Join(parts[1..], sep)
  }

  /** Number of occurrences of `x` in `s`. */
  function Count(s: GoString, x: Byte): nat
  {
    if s == [] then 0 else (if s[0] == x then 1 else 0) + Count(s[1..], x)
  }

  lemma {:induction false} JoinCons(c: Byte, p: GoString, tail: seq<GoString>, sep: Byte)
    ensures Join([[c] + p] + tail, sep) == [c] + Join([p] + tail, sep)
  {
  }

  /** Joining the pieces with the separator gives back the host name. */
  lemma {:induction false} JoinSplit(s: GoString, sep: Byte)
    ensures Join(Split(s, sep), sep) == s
  {
    if s != [] {
      var rest := Split(s[1..], sep);
      JoinSplit(s[1..], sep);
      if s[0] == sep {
        assert ([[]] + rest)[1..] == rest;
      } else {
        assert rest == [rest[0]] + rest[1..];
        JoinCons(s[0], rest[0], rest[1..], sep);
      }
    }
  }

  /** A host name with k separators splits into k + 1 pieces. */
  lemma {:induction false} SplitLength(s: GoString, sep: Byte)
    ensures |Split(s, sep)| == Count(s, sep) + 1
  {
    if s != [] {
      SplitLength(s[1..], sep);
    }
  }

  lemma {:induction false} SplitNoSep(p: GoString, sep: Byte)
    requires sep !in p
    ensures Split(p, sep) == [p]
  {
    if p != [] {
      SplitNoSep(p[1..], sep);
      assert [p[0]] + p[1..] == p;
    }
  }

  lemma {:induction false} SplitAtSep(p: GoString, sep: Byte, t: GoString)
    requires sep !in p
    ensures Split(p + [sep] + t, sep) == [p] + Split(t, sep)
  {
    if p == [] {
      assert (p + [sep] + t)[1..] == t;
    } else {
      var s := p + [sep] + t;
      assert s[1..] == p[1..] + [sep] + t;
      SplitAtSep(p[1..], sep, t);
      assert [p[0]] + p[1..] == p;
    }
  }

  /** Conversely, pieces free of the separator are recovered from their join. */
  lemma {:induction false} SplitJoin(parts: seq<GoString>, sep: Byte)
    requires |parts| >= 1
    requires forall k | 0 <= k < |parts| :: sep !in parts[k]
    ensures Split(Join(parts, sep), sep) == parts
  {
    if |parts| == 1 {
      SplitNoSep(parts[0], sep);
    } else {
      SplitJoin(parts[1..], sep);
      SplitAtSep(parts[0], sep, Join(parts[1..], sep));
      assert [parts[0]] + parts[1..] == parts;
    }
  }

  // ---------------------------------------------------------------------------
  // Subject Alternative Names
  // ---------------------------------------------------------------------------

  /** `net.IP`: the parsed address bytes. */
  type IP = seq<Byte>

  /** `net.ParseIP`, with its nil result as None. Its grammar (dotted IPv4,
      IPv6) is a library matter and stays abstract. */
  type IPParser = GoString -> Option<IP>

  /** The IP-address SANs the loop collects from `hosts`, in order. Nothing is
      invented: each is the parse of some host part. */
  function IpEntries(hosts: seq<GoString>, parseIP: IPParser): (ips: seq<IP>)
    ensures |ips| <= |hosts|
    ensures forall k | 0 <= k < |ips| ::
      exists j | 0 <= j < |hosts| :: parseIP(hosts[j]) == Some(ips[k])
  {
    if hosts == [] then []
    else
      IpEntries(hosts[..|hosts| - 1], parseIP) +
      match parseIP(hosts[|hosts| - 1])
      case Some(ip) => [ip]
      case None => []
  }

  /** The DNS-name SANs the loop collects from `hosts`, in order. Each is a
      host part, unchanged, that does not parse as an IP. */
  function DnsEntries(hosts: seq<GoString>, parseIP: IPParser): (names: seq<GoString>)
    ensures |names| <= |hosts|
    ensures forall k | 0 <= k < |names| :: names[k] in hosts && parseIP(names[k]).None?
  {
    if hosts == [] then []
    else
      DnsEntries(hosts[..|hosts| - 1], parseIP) +
      match parseIP(hosts[|hosts| - 1])
      case Some(_) => []
      case None => [hosts[|hosts| - 1]]
  }

  /** The classification loop: each host part is appended to `ipAddresses` (as
      its parsed address) when it parses as an IP, and to `dnsNames` otherwise. */
  method AddSubjectAltNames(hosts: seq<GoString>, parseIP: IPParser)
    returns (ipAddresses: seq<IP>, dnsNames: seq<GoString>)
    ensures ipAddresses == IpEntries(hosts, parseIP)
    ensures dnsNames == DnsEntries(hosts, parseIP)
  {
    ipAddresses, dnsNames := [], [];
    for i := 0 to |hosts|
      invariant ipAddresses == IpEntries(hosts[..i], parseIP)
      invariant dnsNames == DnsEntries(hosts[..i], parseIP)
    {
      assert hosts[..i + 1][..i] == hosts[..i];
      var h := hosts[i];
      match parseIP(h)
      case Some(ip) =>
        ipAddresses := ipAddresses + [ip];
      case None =>
        dnsNames := dnsNames + [h];
    }
    assert hosts[..|hosts|] == hosts;
  }

  /** Every host part lands in exactly one of the two lists. */
  lemma {:induction false} EntriesPartition(hosts: seq<GoString>, parseIP: IPParser)
    ensures |IpEntries(hosts, parseIP)| + |DnsEntries(hosts, parseIP)| == |hosts|
  {
    if hosts != [] {
      EntriesPartition(hosts[..|hosts| - 1], parseIP);
    }
  }

  lemma {:induction false} IpEntriesPrefix(hosts: seq<GoString>, parseIP: IPParser, k: nat)
    requires k <= |hosts|
    ensures IpEntries(hosts[..k], parseIP) <= IpEntries(hosts, parseIP)
    decreases |hosts| - k
  {
    if k < |hosts| {
      var init := hosts[..|hosts| - 1];
      assert init[..k] == hosts[..k];
      IpEntriesPrefix(init, parseIP, k);
    } else {
      assert hosts[..k] == hosts;
    }
  }

  lemma {:induction false} DnsEntriesPrefix(hosts: seq<GoString>, parseIP: IPParser, k: nat)
    requires k <= |hosts|
    ensures DnsEntries(hosts[..k], parseIP) <= DnsEntries(hosts, parseIP)
    decreases |hosts| - k
  {
    if k < |hosts| {
      var init := hosts[..|hosts| - 1];
      assert init[..k] == hosts[..k];
      DnsEntriesPrefix(init, parseIP, k);
    } else {
      assert hosts[..k] == hosts;
    }
  }

  /** Position of part `j` within the IP-address list: the number of IP parts
      before it. */
  function IpRank(hosts: seq<GoString>, parseIP: IPParser, j: nat): nat
    requires j <= |hosts|
  {
    |IpEntries(hosts[..j], parseIP)|
  }

  /** Position of part `j` within the DNS-name list. */
  function DnsRank(hosts: seq<GoString>, parseIP: IPParser, j: nat): nat
    requires j <= |hosts|
  {
    |DnsEntries(hosts[..j], parseIP)|
  }

  /** A part that parses as an IP is in the IP-address list, as its parsed
      address, at its rank among the IP parts. */
  lemma IpPartListed(hosts: seq<GoString>, parseIP: IPParser, i: nat)
    requires i < |hosts| && parseIP(hosts[i]).Some?
    ensures IpRank(hosts, parseIP, i) < |IpEntries(hosts, parseIP)|
    ensures IpEntries(hosts, parseIP)[IpRank(hosts, parseIP, i)] == parseIP(hosts[i]).value
  {
    assert hosts[..i + 1][..i] == hosts[..i];
    IpEntriesPrefix(hosts, parseIP, i + 1);
  }

  /** A part that does not parse as an IP is in the DNS-name list, unchanged, at
      its rank among the DNS parts. */
  lemma DnsPartListed(hosts: seq<GoString>, parseIP: IPParser, i: nat)
    requires i < |hosts| && parseIP(hosts[i]).None?
    ensures DnsRank(hosts, parseIP, i) < |DnsEntries(hosts, parseIP)|
    ensures DnsEntries(hosts, parseIP)[DnsRank(hosts, parseIP, i)] == hosts[i]
  {
    assert hosts[..i + 1][..i] == hosts[..i];
    DnsEntriesPrefix(hosts, parseIP, i + 1);
  }

  /** Two IP parts appear in the IP-address list in the order of the host name. */
  lemma IpPartPlaced(hosts: seq<GoString>, parseIP: IPParser, i: nat, j: nat)
    requires i < j < |hosts|
    requires parseIP(hosts[i]).Some? && parseIP(hosts[j]).Some?
    ensures IpRank(hosts, parseIP, i) < IpRank(hosts, parseIP, j) < |IpEntries(hosts, parseIP)|
    ensures IpEntries(hosts, parseIP)[IpRank(hosts, parseIP, i)] == parseIP(hosts[i]).value
    ensures IpEntries(hosts, parseIP)[IpRank(hosts, parseIP, j)] == parseIP(hosts[j]).value
  {
    assert hosts[..i + 1][..i] == hosts[..i];
    assert hosts[..j + 1][..j] == hosts[..j];
    assert hosts[..j][..i + 1] == hosts[..i + 1];
    IpEntriesPrefix(hosts[..j], parseIP, i + 1);
    IpEntriesPrefix(hosts, parseIP, i + 1);
    IpEntriesPrefix(hosts, parseIP, j + 1);
  }

  /** Two DNS parts appear in the DNS-name list in the order of the host name. */
  lemma DnsPartPlaced(hosts: seq<GoString>, parseIP: IPParser, i: nat, j: nat)
    requires i < j < |hosts|
    requires parseIP(hosts[i]).None? && parseIP(hosts[j]).None?
    ensures DnsRank(hosts, parseIP, i) < DnsRank(hosts, parseIP, j) < |DnsEntries(hosts, parseIP)|
    ensures DnsEntries(hosts, parseIP)[DnsRank(hosts, parseIP, i)] == hosts[i]
    ensures DnsEntries(hosts, parseIP)[DnsRank(hosts, parseIP, j)] == hosts[j]
  {
    assert hosts[..i + 1][..i] == hosts[..i];
    assert hosts[..j + 1][..j] == hosts[..j];
    assert hosts[..j][..i + 1] == hosts[..i + 1];
    DnsEntriesPrefix(hosts[..j], parseIP, i + 1);
    DnsEntriesPrefix(hosts, parseIP, i + 1);
    DnsEntriesPrefix(hosts, parseIP, j + 1);
  }

  // ---------------------------------------------------------------------------
  // The certificate template
  // ---------------------------------------------------------------------------

  /** `time.Second` and `time.Hour`, as Go's `time.Duration` counts them: nanoseconds. */
  const Second: int := 1_000_000_000
  const Hour: int := 3600 * Second

  /** `validFor`: the lifetime of the session certificate. */
  const ValidFor: int := 365 * 24 * Hour

  /** `serialNumberLimit`: 1 << 128. */
  const SerialNumberLimit: nat := 0x1_0000_0000_0000_0000_0000_0000_0000_0000

  /** "filetransfer", the subject organization. */
  const Organization: GoString := [0x66, 0x69, 0x6C, 0x65, 0x74, 0x72, 0x61, 0x6E, 0x73, 0x66, 0x65, 0x72]

  datatype KeyUsage = KeyUsageDigitalSignature
  datatype ExtKeyUsage = ExtKeyUsageServerAuth

  /** The fields of the `x509.Certificate` template that the source sets; times
      are nanoseconds since the epoch. */
  datatype Template = Template(
    serialNumber: nat,
    organization: seq<GoString>,
    notBefore: int,
    notAfter: int,
    keyUsage: KeyUsage,
    extKeyUsage: seq<ExtKeyUsage>,
    basicConstraintsValid: bool,
    ipAddresses: seq<IP>,
    dnsNames: seq<GoString>)

  datatype IdentityError = HostnameFailed | SerialFailed

  /** Builds the certificate template. `hostname` is what `os.Hostname` returned
      (None for an error), `now` is `time.Now()`, and `serialDraw` is what
      `rand.Int(rand.Reader, serialNumberLimit)` returned (None for an error);
      `rand.Int` promises a value in [0, serialNumberLimit). */
  method CertificateTemplate(hostname: Option<GoString>, now: int, serialDraw: Option<nat>, parseIP: IPParser)
    returns (r: Result<Template, IdentityError>)
    requires serialDraw.Some? ==> serialDraw.value < SerialNumberLimit
    ensures hostname.None? ==> r == Err(HostnameFailed)
    ensures hostname.Some? && serialDraw.None? ==> r == Err(SerialFailed)
    ensures r.Ok? <==> hostname.Some? && serialDraw.Some?
    ensures r.Ok? ==>
      && r.value.notBefore == now
      && r.value.notAfter - r.value.notBefore == 31_536_000 * Second
      && r.value.serialNumber == serialDraw.value
      && 0 <= r.value.serialNumber < 340282366920938463463374607431768211456
      && r.value.organization == [Organization]
      && r.value.keyUsage == KeyUsageDigitalSignature
      && r.value.extKeyUsage == [ExtKeyUsageServerAuth]
      && r.value.basicConstraintsValid
    ensures r.Ok? ==>
      && r.value.ipAddresses == IpEntries(Split(hostname.value, Comma), parseIP)
      && r.value.dnsNames == DnsEntries(Split(hostname.value, Comma), parseIP)
  {
    if hostname.None? {
      return Err(HostnameFailed);
    }
    var notBefore := now;
    var notAfter := notBefore + ValidFor;
    if serialDraw.None? {
      return Err(SerialFailed);
    }
    var hosts := Split(hostname.value, Comma);
    var ips, dns := AddSubjectAltNames(hosts, parseIP);
    r := Ok(Template(
      serialDraw.value, [Organization], notBefore, notAfter,
      KeyUsageDigitalSignature, [ExtKeyUsageServerAuth], true, ips, dns));
  }
}
