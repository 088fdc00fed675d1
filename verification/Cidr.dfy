/**
  Network addresses as the AmneziaWG adapter reads and prints them: the prefix of a
  peer or an interface (config.go:197-207, 239-246) and the server's own address
  inside the subnet it is given (inbound.go:199-215).
*/
module Cidr {
  import opened Common
  import opened Text
  import Numbers

  datatype Quad = Quad(a: nat, b: nat, c: nat, d: nat)

  datatype Prefix = Prefix(ip: Quad, bits: nat)

  predicate IsOctet(n: nat) { n < 256 }

  predicate QuadOk(q: Quad) { IsOctet(q.a) && IsOctet(q.b) && IsOctet(q.c) && IsOctet(q.d) }

  predicate PrefixOk(p: Prefix) { QuadOk(p.ip) && p.bits <= 32 }

  // --------------------------------------------------------------- printing, reading

  /** A field of an address or a prefix length: digits, no leading zero, within a bound. */
  function ReadField(s: string, most: nat): Option<nat> {
    var n := Numbers.Read(s, Numbers.Ten);
    if s == "" || |s| > 3 || (|s| > 1 && s[0] == '0') || n.None? || n.value > most then None else n
  }

  function ReadQuad(s: string): Option<Quad> {
    var parts := Split(s, '.');
    if |parts| != 4 then None
    else
      var a, b, c, d := ReadField(parts[0], 255), ReadField(parts[1], 255), ReadField(parts[2], 255),
          ReadField(parts[3], 255);
      if a.None? || b.None? || c.None? || d.None? then None
      else Some(Quad(a.value, b.value, c.value, d.value))
  }

  function ReadPrefix(s: string): Option<Prefix> {
    var (addr, bits) := Cut(s, '/');
    if bits.None? then None
    else
      var q, n := ReadQuad(addr), ReadField(bits.value, 32);
      if q.None? || n.None? then None else Some(Prefix(q.value, n.value))
  }

  function Fields(q: Quad): seq<string> {
    [Numbers.Print(q.a, Numbers.Ten), Numbers.Print(q.b, Numbers.Ten),
     Numbers.Print(q.c, Numbers.Ten), Numbers.Print(q.d, Numbers.Ten)]
  }

  function PrintQuad(q: Quad): string {
    Join(Fields(q), '.')
  }

  function PrintPrefix(p: Prefix): string {
    PrintQuad(p.ip) + "/" + Numbers.Print(p.bits, Numbers.Ten)
  }

  lemma ReadPrintField(n: nat, most: nat)
    requires n <= most < 1000
    ensures ReadField(Numbers.Print(n, Numbers.Ten), most) == Some(n)
  {
    Numbers.PrintSmall(n);
    Numbers.ReadPrint(n, Numbers.Ten);
  }

  /** The characters of a printed address. */
  predicate AddressChar(c: char) { IsDigit(c) || c == '.' }

  predicate AllAddress(s: string) {
    forall i :: 0 <= i < |s| ==> AddressChar(s[i])
  }

  lemma FieldChars(n: nat)
    ensures AllAddress(Numbers.Print(n, Numbers.Ten)) && Lacks(Numbers.Print(n, Numbers.Ten), '.')
  {
    var s := Numbers.Print(n, Numbers.Ten);
    assert Numbers.DigitsOf(s, Numbers.Ten);
  }

  lemma QuadChars(q: Quad)
    ensures AllAddress(PrintQuad(q)) && PrintQuad(q) != ""
    ensures PrintQuad(q) == Fields(q)[0] + "." + (Fields(q)[1] + "." + (Fields(q)[2] + "." + Fields(q)[3]))
  {
    FieldChars(q.a);
    FieldChars(q.b);
    FieldChars(q.c);
    FieldChars(q.d);
    var f := Fields(q);
    assert f[1..][1..] == f[2..] && f[2..][1..] == f[3..];
    assert Join(f[3..], '.') == f[3];
    assert Join(f[2..], '.') == f[2] + "." + f[3];
    assert Join(f[1..], '.') == f[1] + "." + (f[2] + "." + f[3]);
  }

  /** A printed address reads back as itself. */
  lemma ReadPrintQuad(q: Quad)
    requires QuadOk(q)
    ensures ReadQuad(PrintQuad(q)) == Some(q)
  {
    FieldChars(q.a);
    FieldChars(q.b);
    FieldChars(q.c);
    FieldChars(q.d);
    SplitJoin(Fields(q), '.');
    ReadPrintField(q.a, 255);
    ReadPrintField(q.b, 255);
    ReadPrintField(q.c, 255);
    ReadPrintField(q.d, 255);
  }

  /** A printed prefix reads back as itself. */
  lemma ReadPrintPrefix(p: Prefix)
    requires PrefixOk(p)
    ensures ReadPrefix(PrintPrefix(p)) == Some(p)
  {
    QuadChars(p.ip);
    CutAt(PrintQuad(p.ip), '/', Numbers.Print(p.bits, Numbers.Ten));
    assert PrintPrefix(p) == PrintQuad(p.ip) + ['/'] + Numbers.Print(p.bits, Numbers.Ten);
    ReadPrintQuad(p.ip);
    ReadPrintField(p.bits, 32);
  }

  // ------------------------------------------------------------------- the network

  function Power(k: nat): (r: nat)
    ensures r >= 1
  {
    if k == 0 then 1 else 2 * Power(k - 1)
  }

  /** How many of an octet's bits the prefix covers, the octet's first bit being at `from`. */
  function Covered(bits: nat, from: nat): (k: nat)
    ensures k <= 8
  {
    if bits <= from then 0 else if bits >= from + 8 then 8 else bits - from
  }

  /** The last k bits of a number. */
  function Low(o: nat, k: nat): (r: nat)
    ensures r <= o && r < Power(k)
  {
    if k == 0 then 0 else o % 2 + 2 * Low(o / 2, k - 1)
  }

  /** An octet without its last bits, those the prefix does not cover. */
  function MaskOctet(o: nat, covered: nat): (r: nat)
    requires covered <= 8
    ensures r <= o
  {
    o - Low(o, 8 - covered)
  }

  /** The network of a prefix: its address with the host bits cleared. */
  function Masked(p: Prefix): (m: Prefix)
    ensures PrefixOk(p) ==> PrefixOk(m)
    ensures m.bits == p.bits
  {
    Prefix(Quad(MaskOctet(p.ip.a, Covered(p.bits, 0)), MaskOctet(p.ip.b, Covered(p.bits, 8)),
                MaskOctet(p.ip.c, Covered(p.bits, 16)), MaskOctet(p.ip.d, Covered(p.bits, 24))), p.bits)
  }

  /** peerNetwork: of the first address of the list, "" if it is not an IPv4 prefix. */
  function PeerNetwork(address: string): string {
    var p := ReadPrefix(Trim(Cut(address, ',').0));
    if p.None? then "" else PrintPrefix(Masked(p.value))
  }

  // ------------------------------------------------------------- the server's address

  /** A byte one up. */
  function Next(d: nat): (r: nat)
    ensures IsOctet(d) ==> IsOctet(r)
  {
    if d == 255 then 0 else d + 1
  }

  /** serverAddressFromSubnet: the last octet of the subnet's address, one up and wrapping. */
  function ServerPrefix(subnet: Prefix): (r: Prefix)
    ensures PrefixOk(subnet) ==> PrefixOk(r)
  {
    subnet.(ip := subnet.ip.(d := Next(subnet.ip.d)))
  }

  function ServerAddress(subnet: Prefix): string {
    PrintPrefix(ServerPrefix(subnet))
  }

  /** The address after a network's own, which is its first host where it has one. */
  function FirstHost(network: Prefix): Quad {
    network.ip.(d := network.ip.d + 1)
  }

  /** Counting up goes through the last bits and starts over. */
  lemma {:induction false} LowUp(d: nat, k: nat)
    ensures Low(d + 1, k) == if Low(d, k) == Power(k) - 1 then 0 else Low(d, k) + 1
  {
    if k > 0 {
      LowUp(d / 2, k - 1);
      if d % 2 == 0 {
        assert (d + 1) / 2 == d / 2 && (d + 1) % 2 == 1;
      } else {
        assert (d + 1) / 2 == d / 2 + 1 && (d + 1) % 2 == 0;
      }
    }
  }

  lemma {:induction false} AllOnes(j: nat, k: nat)
    requires k <= j
    ensures Low(Power(j) - 1, k) == Power(k) - 1
    ensures Power(k) <= Power(j) && (k < j ==> Power(k) < Power(j))
  {
    if k > 0 {
      AllOnes(j - 1, k - 1);
      assert (Power(j) - 1) / 2 == Power(j - 1) - 1 && (Power(j) - 1) % 2 == 1;
    } else if j > 0 {
      AllOnes(j - 1, k);
    }
  }

  lemma {:induction false} NoneLow(k: nat)
    ensures Low(0, k) == 0
  {
    if k > 0 {
      NoneLow(k - 1);
    }
  }

  lemma LastOctet(k: nat)
    requires k < 8
    ensures Low(255, k) == Power(k) - 1 && Power(k) < 256
  {
    assert Power(4) == 16;
    assert Power(8) == 256;
    AllOnes(8, k);
  }

  /** One up from an octet stays in its block, unless it is the last there. */
  lemma OneUp(d: nat, k: nat)
    requires IsOctet(d) && k < 8
    ensures d - Low(d, k) == Next(d) - Low(Next(d), k) <==> Low(d, k) != Power(k) - 1
    ensures d == 255 ==> Low(d, k) == Power(k) - 1
  {
    if d == 255 {
      LastOctet(k);
      NoneLow(k);
    } else {
      LowUp(d, k);
    }
  }

  lemma NothingMasked(o: nat)
    ensures MaskOctet(o, 8) == o
  {
    assert Low(o, 0) == 0;
  }

  /** Long prefixes leave the first three octets as they are; short ones clear the last. */
  lemma MaskedParts(p: Prefix)
    requires PrefixOk(p)
    ensures p.bits > 24 ==> Masked(p) == p.(ip := p.ip.(d := p.ip.d - Low(p.ip.d, 32 - p.bits)))
    ensures p.bits <= 24 ==> Masked(p).ip.d == p.ip.d - Low(p.ip.d, 8)
  {
    if p.bits > 24 {
      NothingMasked(p.ip.a);
      NothingMasked(p.ip.b);
      NothingMasked(p.ip.c);
    }
  }

  /** The last bits of the greatest octet are not all clear. */
  lemma LowTop(k: nat)
    requires 0 < k < 8
    ensures Low(255, k) > 0
  {
    LastOctet(k);
    assert Power(k) == 2 * Power(k - 1);
  }

  lemma NextIffClear(d: nat, k: nat)
    requires IsOctet(d) && 0 < k < 8
    ensures Next(d) == d - Low(d, k) + 1 <==> Low(d, k) == 0
  {
    LowTop(k);
  }

  lemma FirstHostLong(subnet: Prefix)
    requires PrefixOk(subnet) && 24 < subnet.bits < 32
    ensures ServerPrefix(subnet).ip == FirstHost(Masked(subnet)) <==> subnet == Masked(subnet)
  {
    MaskedParts(subnet);
    NextIffClear(subnet.ip.d, 32 - subnet.bits);
  }

  lemma SameQuad(p: Prefix, m: Prefix)
    requires PrefixOk(p) && m.bits == p.bits && m.ip.d == 0
    ensures ServerPrefix(p).ip == FirstHost(m) <==> p == m
  {
  }

  lemma {:induction false} LowWhole(d: nat, k: nat)
    requires d < Power(k)
    ensures Low(d, k) == d
  {
    if k > 0 {
      LowWhole(d / 2, k - 1);
    }
  }

  lemma OctetHasEightBits(d: nat)
    requires IsOctet(d)
    ensures Low(d, 8) == d
  {
    assert Power(4) == 16;
    assert Power(8) == 256;
    LowWhole(d, 8);
  }

  lemma FirstHostShort(subnet: Prefix)
    requires PrefixOk(subnet) && subnet.bits <= 24
    ensures ServerPrefix(subnet).ip == FirstHost(Masked(subnet)) <==> subnet == Masked(subnet)
  {
    MaskedParts(subnet);
    OctetHasEightBits(subnet.ip.d);
    SameQuad(subnet, Masked(subnet));
  }

  /**
    The server takes the address after the network's own exactly when the subnet
    is written with its network address, and its last octet does not wrap, as
    only that of one address can.
  */
  lemma FirstHostIff(subnet: Prefix)
    requires PrefixOk(subnet)
    ensures ServerPrefix(subnet).ip == FirstHost(Masked(subnet)) <==> subnet == Masked(subnet) && subnet.ip.d != 255
    ensures subnet == Masked(subnet) && subnet.ip.d == 255 ==> subnet.bits == 32
  {
    MaskedParts(subnet);
    if subnet.bits == 32 {
      assert Low(subnet.ip.d, 0) == 0;
    } else if subnet.bits > 24 {
      LowTop(32 - subnet.bits);
      FirstHostLong(subnet);
    } else {
      FirstHostShort(subnet);
    }
  }

  /** The last address of a block of the prefix's size within the last octet. */
  predicate LastOfBlock(p: Prefix) {
    24 < p.bits <= 32 && Low(p.ip.d, 32 - p.bits) == Power(32 - p.bits) - 1
  }

  lemma SameNetworkIff(subnet: Prefix)
    requires PrefixOk(subnet)
    ensures Masked(ServerPrefix(subnet)) == Masked(subnet) <==> !LastOfBlock(subnet)
  {
    MaskedParts(subnet);
    MaskedParts(ServerPrefix(subnet));
    if subnet.bits > 24 {
      OneUp(subnet.ip.d, 32 - subnet.bits);
    } else {
      OctetHasEightBits(subnet.ip.d);
      OctetHasEightBits(Next(subnet.ip.d));
    }
  }

  lemma PrintInjective(p: Prefix, q: Prefix)
    requires PrefixOk(p) && PrefixOk(q)
    ensures PrintPrefix(p) == PrintPrefix(q) <==> p == q
  {
    ReadPrintPrefix(p);
    ReadPrintPrefix(q);
  }

  /** A printed prefix has nothing to trim and nothing to cut. */
  lemma PlainAddress(p: Prefix)
    ensures Cut(PrintPrefix(p), ',').0 == PrintPrefix(p) && Trim(PrintPrefix(p)) == PrintPrefix(p)
    ensures forall i :: 0 <= i < |PrintPrefix(p)| ==> AddressChar(PrintPrefix(p)[i]) || PrintPrefix(p)[i] == '/'
  {
    QuadChars(p.ip);
    FieldChars(p.bits);
    CutLacks(PrintPrefix(p), ',');
    TrimNothing(PrintPrefix(p));
  }

  /**
    The MASQUERADE of the default hooks names the network the peers are handed
    addresses from, unless the subnet is written with the last address of its block.
  */
  lemma HooksNameTheSubnetIff(subnet: Prefix)
    requires PrefixOk(subnet)
    ensures PeerNetwork(ServerAddress(subnet)) == PrintPrefix(Masked(subnet)) <==> !LastOfBlock(subnet)
  {
    var server := ServerPrefix(subnet);
    PlainAddress(server);
    ReadPrintPrefix(server);
    assert PeerNetwork(ServerAddress(subnet)) == PrintPrefix(Masked(server));
    SameNetworkIff(subnet);
    PrintInjective(Masked(server), Masked(subnet));
  }

  // ---------------------------------------------------------- what a peer may be given

  /** Which texts are IPv6 addresses is the library's to say, of texts with these characters. */
  type Six = string -> bool

  predicate SixChar(c: char) {
    Numbers.IsHexDigit(c) || 'A' <= c <= 'F' || c == ':' || c == '.'
  }

  predicate AllSix(s: string) {
    forall i :: 0 <= i < |s| ==> SixChar(s[i])
  }

  /** validateAllowedIP: an address and a prefix length, of either family. */
  predicate IsPrefix(s: string, six: Six) {
    var (addr, bits) := Cut(s, '/');
    bits.Some? && if ReadQuad(addr).Some? then ReadField(bits.value, 32).Some?
                  else AllSix(addr) && addr != "" && six(addr) && ReadField(bits.value, 128).Some?
  }

  // ---------------------------------------------------------- exactly what is printed

  lemma FieldReadIff(s: string, most: nat, n: nat)
    requires most < 1000
    ensures ReadField(s, most) == Some(n) <==> n <= most && s == Numbers.Print(n, Numbers.Ten)
  {
    if n <= most && s == Numbers.Print(n, Numbers.Ten) {
      ReadPrintField(n, most);
    }
    if ReadField(s, most) == Some(n) {
      Numbers.PrintRead(s);
    }
  }

  lemma FourRead(parts: seq<string>, q: Quad)
    requires |parts| == 4
    requires ReadField(parts[0], 255) == Some(q.a) && ReadField(parts[1], 255) == Some(q.b)
    requires ReadField(parts[2], 255) == Some(q.c) && ReadField(parts[3], 255) == Some(q.d)
    ensures QuadOk(q) && parts == Fields(q)
  {
    FieldReadIff(parts[0], 255, q.a);
    FieldReadIff(parts[1], 255, q.b);
    FieldReadIff(parts[2], 255, q.c);
    FieldReadIff(parts[3], 255, q.d);
  }

  lemma ReadQuadIff(s: string, q: Quad)
    ensures ReadQuad(s) == Some(q) <==> QuadOk(q) && s == PrintQuad(q)
  {
    if QuadOk(q) && s == PrintQuad(q) {
      ReadPrintQuad(q);
    }
    if ReadQuad(s) == Some(q) {
      FourRead(Split(s, '.'), q);
      JoinSplit(s, '.');
    }
  }

  /** A text reads as an IPv4 prefix exactly when it is the print of one. */
  lemma ReadPrefixIff(s: string, p: Prefix)
    ensures ReadPrefix(s) == Some(p) <==>
              && p.ip.a <= 255 && p.ip.b <= 255 && p.ip.c <= 255 && p.ip.d <= 255 && p.bits <= 32
              && s == PrintPrefix(p)
  {
    if PrefixOk(p) && s == PrintPrefix(p) {
      ReadPrintPrefix(p);
    }
    if ReadPrefix(s) == Some(p) {
      var (addr, bits) := Cut(s, '/');
      CutParts(s, '/');
      ReadQuadIff(addr, p.ip);
      FieldReadIff(bits.value, 32, p.bits);
      assert s == addr + "/" + bits.value;
    }
  }

  /** An IPv6 address and its length. */
  ghost predicate SixPrefix(s: string, addr: string, n: nat, six: Six) {
    && n <= 128 && s == addr + "/" + Numbers.Print(n, Numbers.Ten)
    && addr != "" && six(addr)
    && (forall i :: 0 <= i < |addr| ==>
          IsDigit(addr[i]) || 'a' <= addr[i] <= 'f' || 'A' <= addr[i] <= 'F' || addr[i] == ':' || addr[i] == '.')
    && forall q :: QuadOk(q) ==> addr != PrintQuad(q)
  }

  ghost predicate FourPrefix(s: string, p: Prefix) {
    PrefixOk(p) && s == PrintPrefix(p)
  }

  lemma FourIsPrefix(s: string, p: Prefix, six: Six)
    requires FourPrefix(s, p)
    ensures IsPrefix(s, six)
  {
    QuadChars(p.ip);
    CutAt(PrintQuad(p.ip), '/', Numbers.Print(p.bits, Numbers.Ten));
    assert s == PrintQuad(p.ip) + ['/'] + Numbers.Print(p.bits, Numbers.Ten);
    ReadPrintQuad(p.ip);
    ReadPrintField(p.bits, 32);
  }

  lemma SixIsPrefix(s: string, addr: string, n: nat, six: Six)
    requires SixPrefix(s, addr, n, six)
    ensures IsPrefix(s, six)
  {
    CutAt(addr, '/', Numbers.Print(n, Numbers.Ten));
    assert s == addr + ['/'] + Numbers.Print(n, Numbers.Ten);
    if ReadQuad(addr).Some? {
      ReadQuadIff(addr, ReadQuad(addr).value);
      assert false;
    }
    ReadPrintField(n, 128);
  }

  /** A peer may be given an IPv4 prefix as it is printed, or an IPv6 address with a length up to 128. */
  lemma IsPrefixIff(s: string, six: Six)
    ensures IsPrefix(s, six) <==>
              (exists p :: FourPrefix(s, p)) || (exists addr, n :: SixPrefix(s, addr, n, six))
  {
    if p :| FourPrefix(s, p) {
      FourIsPrefix(s, p, six);
    } else if addr, n :| SixPrefix(s, addr, n, six) {
      SixIsPrefix(s, addr, n, six);
    } else if IsPrefix(s, six) {
      var (addr, bits) := Cut(s, '/');
      CutParts(s, '/');
      assert s == addr + "/" + bits.value;
      if ReadQuad(addr).Some? {
        var p := Prefix(ReadQuad(addr).value, ReadField(bits.value, 32).value);
        ReadQuadIff(addr, p.ip);
        FieldReadIff(bits.value, 32, p.bits);
        assert FourPrefix(s, p);
      } else {
        var n := ReadField(bits.value, 128).value;
        FieldReadIff(bits.value, 128, n);
        forall q | QuadOk(q) ensures addr != PrintQuad(q) {
          ReadQuadIff(addr, q);
        }
        assert SixPrefix(s, addr, n, six);
      }
    }
  }

  // --------------------------------------------------------------- octet by octet

  lemma Multiple(d: int, n: nat)
    ensures d >= 1 ==> d * n >= n
    ensures (-d) * n == -(d * n)
  {
  }

  lemma Remainder(a: nat, q: nat, r: nat, n: nat)
    requires n > 0 && a == q * n + r && r < n
    ensures a % n == r
  {
    var d := a / n - q;
    assert a == (a / n) * n + a % n;
    Multiple(d, n);
    Multiple(-d, n);
    assert d * n == (a / n) * n - q * n;
  }

  lemma Doubled(o: nat, m: nat)
    requires m > 0
    ensures o % (2 * m) == o % 2 + 2 * ((o / 2) % m)
  {
    var q, r := (o / 2) / m, (o / 2) % m;
    assert o / 2 == q * m + r;
    assert 2 * (q * m) == q * (2 * m);
    Remainder(o, q, o % 2 + 2 * r, 2 * m);
  }

  /** The last k bits of a number are what is left of it over the k-th power of two. */
  lemma {:induction false} LowIsRemainder(o: nat, k: nat)
    ensures Low(o, k) == o % Power(k)
  {
    if k == 0 {
      assert Power(0) == 1;
    } else {
      LowIsRemainder(o / 2, k - 1);
      Doubled(o, Power(k - 1));
    }
  }

  /** What is left of a number over another. */
  function Rest(o: nat, n: nat): (r: nat)
    requires n > 0
    ensures r <= o
  {
    o % n
  }

  /** An octet of a network: kept where the prefix covers it, zero past its end, and rounded down where it ends. */
  function OctetOf(o: nat, bits: nat, first: nat): nat {
    if bits >= first + 8 then o
    else if bits <= first then 0
    else o - Rest(o, Power(first + 8 - bits))
  }

  lemma OctetMasked(o: nat, bits: nat, first: nat)
    requires IsOctet(o)
    ensures MaskOctet(o, Covered(bits, first)) == OctetOf(o, bits, first)
  {
    LowIsRemainder(o, 8 - Covered(bits, first));
    assert Power(0) == 1;
    OctetHasEightBits(o);
  }

  /** The network of a prefix, octet by octet. */
  lemma NetworkOf(p: Prefix)
    requires PrefixOk(p)
    ensures Masked(p) == Prefix(Quad(OctetOf(p.ip.a, p.bits, 0), OctetOf(p.ip.b, p.bits, 8),
                                     OctetOf(p.ip.c, p.bits, 16), OctetOf(p.ip.d, p.bits, 24)), p.bits)
  {
    OctetMasked(p.ip.a, p.bits, 0);
    OctetMasked(p.ip.b, p.bits, 8);
    OctetMasked(p.ip.c, p.bits, 16);
    OctetMasked(p.ip.d, p.bits, 24);
  }
}
