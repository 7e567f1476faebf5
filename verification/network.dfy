/**
 The address model of the extractor. A network is a base address (its bytes) and a
 prefix length; the address family is not stored but follows from the address bytes,
 as for Go's `net.IPNet`. The textual CIDR syntax of the Go standard library
 (`IPNet.String` and `net.ParseCIDR`) is not modelled; it is a parameter of the model.
 */
module Network {
  import opened Results

  type byte = x: int | 0 <= x < 256

  /** A network range: base address bytes and prefix length. */
  datatype Net = Net(ip: seq<byte>, prefixLen: nat)

  /** The twelve bytes that start an IPv4 address embedded in a 16-byte IPv6 address. */
  const V4InV6Prefix: seq<byte> := [0, 0, 0, 0, 0, 0, 0, 0, 0, 0, 0xff, 0xff]

  /**
   The 4-byte form of an address, as Go's `IP.To4` computes it: a 4-byte address is its
   own 4-byte form, a 16-byte address starting with ::ffff: has its last four bytes as
   its 4-byte form, and every other address has none.
   */
  function To4(ip: seq<byte>): (r: Option<seq<byte>>)
    ensures r.Some? <==> |ip| == 4 || (|ip| == 16 && ip[..12] == V4InV6Prefix)
    ensures r.Some? ==> |r.value| == 4 && r.value == ip[|ip| - 4..]
  {
    if |ip| == 4 then Some(ip)
    else if |ip| == 16 && IsZeros(ip[..10]) && ip[10] == 0xff && ip[11] == 0xff then Some(ip[12..])
    else None
  }

  /** True iff every byte of `s` is zero. */
  predicate IsZeros(s: seq<byte>)
  {
    forall i :: 0 <= i < |s| ==> s[i] == 0
  }

  /** True iff the address has a 4-byte (IPv4) form; such networks go to the IPv4 set. */
  predicate HasFourByteForm(ip: seq<byte>)
  {
    To4(ip).Some?
  }

  /**
   The CIDR text syntax of the standard library, left abstract: `format` renders a
   network as text (`IPNet.String`) and `parse` reads a CIDR text back into its
   network (the network result of `net.ParseCIDR`), failing with `None`.
   */
  datatype CidrSyntax = CidrSyntax(format: Net -> string, parse: string -> Option<Net>)

  /** The network that `net.ParseCIDR(n.String())` yields, if any. */
  function Reparse(syn: CidrSyntax, n: Net): Option<Net>
  {
    syn.parse(syn.format(n))
  }

  /** The syntax never renders a network as text containing a line break. */
  ghost predicate SingleLine(syn: CidrSyntax)
  {
    forall n: Net :: '\n' !in syn.format(n)
  }

  /**
   Among networks that re-parsing produces, the syntax never renders one with a 4-byte
   form and one without it as the same text (dotted-quad versus colon-separated text, in
   the standard library). Networks that do not re-parse are not constrained: the
   standard library renders every network with an invalid mask as the same placeholder.
   */
  ghost predicate SeparatesFamilies(syn: CidrSyntax)
  {
    forall x: Net, y: Net, a: Net, b: Net ::
      Reparse(syn, x) == Some(a) && Reparse(syn, y) == Some(b) && HasFourByteForm(a.ip) && !HasFourByteForm(b.ip)
      ==> syn.format(a) != syn.format(b)
  }

  /** Re-parsing the text of a re-parsed network gives that network back. */
  ghost predicate StableReparse(syn: CidrSyntax)
  {
    forall n: Net, m: Net :: Reparse(syn, n) == Some(m) ==> Reparse(syn, m) == Some(m)
  }
}
