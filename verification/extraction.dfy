/**
 Extraction of the target country's networks from the country database
 (the loop of `main` in main.go). The database iteration is a sequence of entries in
 iteration order; each entry either failed to decode or carries a network and the ISO
 code of its country record. Entries of the target country whose network re-parses
 are appended, in order, to the IPv4 list when the re-parsed address has a 4-byte form
 and to the IPv6 list otherwise.
 */
module Extraction {
  import opened Results
  import opened Network

  /** The ISO code whose networks are extracted; compared case-sensitively. */
  const TargetCountry: string := "CN"

  /** One step of the database iteration. */
  datatype Entry = Undecodable | Record(network: Net, isoCode: string)

  datatype Family = IPv4 | IPv6

  /** A network of the target country: its family, the re-parsed network and its CIDR text. */
  datatype Classified = Classified(family: Family, network: Net, cidr: string)

  /** The two lists the extraction accumulates. */
  datatype Lists = Lists(v4: seq<string>, v6: seq<string>)

  /**
   Decides what one entry contributes: nothing for an undecodable entry, for another
   country, or for a network whose text does not re-parse; otherwise the re-parsed
   network, its text and its family.
   */
  function Classify(syn: CidrSyntax, e: Entry): (r: Option<Classified>)
    ensures r.Some? <==> e.Record? && e.isoCode == TargetCountry && Reparse(syn, e.network).Some?
    ensures r.Some? ==> Reparse(syn, e.network) == Some(r.value.network)
    ensures r.Some? ==> r.value.cidr == syn.format(r.value.network)
    ensures r.Some? ==> (r.value.family == IPv4 <==> HasFourByteForm(r.value.network.ip))
  {
    match e
    case Undecodable => None
    case Record(n, iso) =>
      if iso != TargetCountry then None
      else
        match Reparse(syn, n)
        case None => None
        case Some(m) => Some(Classified(if HasFourByteForm(m.ip) then IPv4 else IPv6, m, syn.format(m)))
  }

  /** Appends what one entry contributes to the lists gathered so far. */
  function Step(syn: CidrSyntax, acc: Lists, e: Entry): Lists
  {
    match Classify(syn, e)
    case None => acc
    case Some(c) =>
      if c.family == IPv4 then Lists(acc.v4 + [c.cidr], acc.v6)
      else Lists(acc.v4, acc.v6 + [c.cidr])
  }

  /** The extraction loop: both lists after iterating over all of `entries`. */
  function Extract(syn: CidrSyntax, entries: seq<Entry>): (r: Lists)
    ensures |r.v4| + |r.v6| <= |entries|
    decreases |entries|
  {
    if |entries| == 0 then Lists([], [])
    else Step(syn, Extract(syn, entries[..|entries| - 1]), entries[|entries| - 1])
  }

  // ---------------------------------------------------------------------------
  // Reference definition: a filter-map over the entries followed by a partition.
  // ---------------------------------------------------------------------------

  /** Every entry's contribution, in iteration order, entries contributing nothing dropped. */
  function Matches(syn: CidrSyntax, entries: seq<Entry>): seq<Classified>
  {
    if |entries| == 0 then []
    else
      match Classify(syn, entries[0])
      case None => Matches(syn, entries[1..])
      case Some(c) => [c] + Matches(syn, entries[1..])
  }

  /** The texts of the networks of family `fam`, in order. */
  function CidrsOf(fam: Family, cs: seq<Classified>): seq<string>
  {
    if |cs| == 0 then []
    else if cs[0].family == fam then [cs[0].cidr] + CidrsOf(fam, cs[1..])
    else CidrsOf(fam, cs[1..])
  }

  /** True iff entry `e` contributes the text `s` to the list of family `fam`. */
  predicate ContributesAs(syn: CidrSyntax, e: Entry, fam: Family, s: string)
  {
    match Classify(syn, e)
    case None => false
    case Some(c) => c.family == fam && c.cidr == s
  }

  /** The positions of the entries that contribute to one of the lists. */
  ghost function Contributing(syn: CidrSyntax, entries: seq<Entry>): set<int>
  {
    set i | 0 <= i < |entries| && Classify(syn, entries[i]).Some?
  }

  function ListOf(r: Lists, fam: Family): seq<string>
  {
    if fam == IPv4 then r.v4 else r.v6
  }

  lemma {:induction false} MatchesConcat(syn: CidrSyntax, a: seq<Entry>, b: seq<Entry>)
    ensures Matches(syn, a + b) == Matches(syn, a) + Matches(syn, b)
    decreases |a|
  {
    if |a| == 0 {
      assert a + b == b;
    } else {
      assert (a + b)[1..] == a[1..] + b;
      assert (a + b)[0] == a[0];
      MatchesConcat(syn, a[1..], b);
    }
  }

  lemma {:induction false} CidrsOfConcat(fam: Family, a: seq<Classified>, b: seq<Classified>)
    ensures CidrsOf(fam, a + b) == CidrsOf(fam, a) + CidrsOf(fam, b)
    decreases |a|
  {
    if |a| == 0 {
      assert a + b == b;
    } else {
      assert (a + b)[1..] == a[1..] + b;
      assert (a + b)[0] == a[0];
      CidrsOfConcat(fam, a[1..], b);
    }
  }

  /** One step appends to a family's list exactly what the entry contributes to that family. */
  lemma StepAppends(syn: CidrSyntax, acc: Lists, e: Entry, fam: Family)
    ensures ListOf(Step(syn, acc, e), fam) == ListOf(acc, fam) + CidrsOf(fam, Matches(syn, [e]))
  {
    var ce := Classify(syn, e);
    assert [e][1..] == [];
    assert Matches(syn, [e]) == if ce.None? then [] else [ce.value];
    if ce.Some? {
      var c := ce.value;
      assert [c][1..] == [];
      assert CidrsOf(fam, [c]) == if c.family == fam then [c.cidr] else [];
    } else {
      assert ListOf(acc, fam) + [] == ListOf(acc, fam);
    }
  }

  lemma {:induction false} ExtractFamily(syn: CidrSyntax, entries: seq<Entry>, fam: Family)
    ensures ListOf(Extract(syn, entries), fam) == CidrsOf(fam, Matches(syn, entries))
    decreases |entries|
  {
    if |entries| > 0 {
      var init, last := entries[..|entries| - 1], entries[|entries| - 1];
      assert entries == init + [last];
      ExtractFamily(syn, init, fam);
      StepAppends(syn, Extract(syn, init), last, fam);
      MatchesConcat(syn, init, [last]);
      CidrsOfConcat(fam, Matches(syn, init), Matches(syn, [last]));
    }
  }

  /**
   The extraction loop computes the filter-map-then-partition reference: each list is
   the texts of the contributing entries of its family, in iteration order.
   */
  lemma ExtractIsPartition(syn: CidrSyntax, entries: seq<Entry>)
    ensures Extract(syn, entries).v4 == CidrsOf(IPv4, Matches(syn, entries))
    ensures Extract(syn, entries).v6 == CidrsOf(IPv6, Matches(syn, entries))
  {
    ExtractFamily(syn, entries, IPv4);
    ExtractFamily(syn, entries, IPv6);
  }

  /**
   Encounter order is preserved: what the entries of `a` contribute comes, unchanged,
   before what the entries of `b` contribute, in both lists.
   */
  lemma ExtractConcat(syn: CidrSyntax, a: seq<Entry>, b: seq<Entry>)
    ensures Extract(syn, a + b).v4 == Extract(syn, a).v4 + Extract(syn, b).v4
    ensures Extract(syn, a + b).v6 == Extract(syn, a).v6 + Extract(syn, b).v6
  {
    ExtractIsPartition(syn, a + b);
    ExtractIsPartition(syn, a);
    ExtractIsPartition(syn, b);
    MatchesConcat(syn, a, b);
    CidrsOfConcat(IPv4, Matches(syn, a), Matches(syn, b));
    CidrsOfConcat(IPv6, Matches(syn, a), Matches(syn, b));
  }

  /**
   An entry that failed to decode, belongs to another country, or whose network does
   not re-parse is skipped: the extraction over the rest is what it would be without it.
   */
  lemma SkippedEntry(syn: CidrSyntax, a: seq<Entry>, e: Entry, b: seq<Entry>)
    requires e.Undecodable? || e.isoCode != TargetCountry || Reparse(syn, e.network).None?
    ensures Extract(syn, a + [e] + b) == Extract(syn, a + b)
  {
    ExtractConcat(syn, a + [e], b);
    ExtractConcat(syn, a, [e]);
    ExtractConcat(syn, a, b);
    assert [e][..0] == [];
  }

  lemma {:induction false} CidrsOfMembership(fam: Family, cs: seq<Classified>, s: string)
    ensures s in CidrsOf(fam, cs) <==> exists c :: c in cs && c.family == fam && c.cidr == s
    decreases |cs|
  {
    if |cs| > 0 {
      CidrsOfMembership(fam, cs[1..], s);
      assert forall c :: c in cs <==> c == cs[0] || c in cs[1..];
    }
  }

  lemma {:induction false} MatchesMembership(syn: CidrSyntax, entries: seq<Entry>, c: Classified)
    ensures c in Matches(syn, entries) <==> exists i :: 0 <= i < |entries| && Classify(syn, entries[i]) == Some(c)
    decreases |entries|
  {
    if |entries| > 0 {
      var tail := entries[1..];
      MatchesMembership(syn, tail, c);
      assert forall i :: 0 <= i < |tail| ==> tail[i] == entries[i + 1];
      if exists i :: 0 <= i < |entries| && Classify(syn, entries[i]) == Some(c) {
        var i :| 0 <= i < |entries| && Classify(syn, entries[i]) == Some(c);
        if i > 0 {
          assert Classify(syn, tail[i - 1]) == Some(c);
        }
      }
    }
  }

  /**
   A text is in the list of family `fam` exactly when some entry of the iteration
   contributes that text to that family.
   */
  lemma ExtractMembership(syn: CidrSyntax, entries: seq<Entry>, fam: Family, s: string)
    ensures s in ListOf(Extract(syn, entries), fam) <==> exists i :: 0 <= i < |entries| && ContributesAs(syn, entries[i], fam, s)
  {
    var ms := Matches(syn, entries);
    ExtractIsPartition(syn, entries);
    CidrsOfMembership(fam, ms, s);
    if s in ListOf(Extract(syn, entries), fam) {
      var c :| c in ms && c.family == fam && c.cidr == s;
      MatchesMembership(syn, entries, c);
      var i :| 0 <= i < |entries| && Classify(syn, entries[i]) == Some(c);
      assert ContributesAs(syn, entries[i], fam, s);
    }
    if exists i :: 0 <= i < |entries| && ContributesAs(syn, entries[i], fam, s) {
      var i :| 0 <= i < |entries| && ContributesAs(syn, entries[i], fam, s);
      var c := Classify(syn, entries[i]).value;
      MatchesMembership(syn, entries, c);
      assert c in ms;
    }
  }

  /**
   Every contributing entry lands in exactly one list, so the two lists together are
   as long as the number of entries of the target country that decoded and re-parsed.
   */
  lemma {:induction false} ExtractCount(syn: CidrSyntax, entries: seq<Entry>)
    ensures |Extract(syn, entries).v4| + |Extract(syn, entries).v6| == |Contributing(syn, entries)|
    decreases |entries|
  {
    if |entries| == 0 {
      assert Contributing(syn, entries) == {};
    } else {
      var n := |entries| - 1;
      var init := entries[..n];
      ExtractCount(syn, init);
      ContributingSnoc(syn, entries);
      var prev := Contributing(syn, init);
      if Classify(syn, entries[n]).Some? {
        assert |prev + {n}| == |prev| + 1;
      }
    }
  }

  lemma ContributingSnoc(syn: CidrSyntax, entries: seq<Entry>)
    requires |entries| > 0
    ensures var n := |entries| - 1;
      Contributing(syn, entries)
        == Contributing(syn, entries[..n]) + (if Classify(syn, entries[n]).Some? then {n} else {})
    ensures |entries| - 1 !in Contributing(syn, entries[..|entries| - 1])
  {
    var n := |entries| - 1;
    assert forall i :: 0 <= i < n ==> entries[..n][i] == entries[i];
  }

  /**
   No text is in both lists, provided the CIDR syntax renders the two address families
   differently: a network goes to one family's list only.
   */
  lemma ListsDisjoint(syn: CidrSyntax, entries: seq<Entry>)
    requires SeparatesFamilies(syn)
    ensures forall s :: s in Extract(syn, entries).v4 ==> s !in Extract(syn, entries).v6
  {
    var r := Extract(syn, entries);
    forall s | s in r.v4
      ensures s !in r.v6
    {
      ExtractMembership(syn, entries, IPv4, s);
      ExtractMembership(syn, entries, IPv6, s);
    }
  }

  /**
   Every text in the IPv4 list parses as a network with a 4-byte form and every text in
   the IPv6 list as one without, provided re-parsing a re-parsed network is stable.
   */
  lemma ListsParseInTheirFamily(syn: CidrSyntax, entries: seq<Entry>)
    requires StableReparse(syn)
    ensures forall s :: s in Extract(syn, entries).v4 ==> syn.parse(s).Some? && HasFourByteForm(syn.parse(s).value.ip)
    ensures forall s :: s in Extract(syn, entries).v6 ==> syn.parse(s).Some? && !HasFourByteForm(syn.parse(s).value.ip)
  {
    var r := Extract(syn, entries);
    forall fam, s | s in ListOf(r, fam)
      ensures syn.parse(s).Some? && (HasFourByteForm(syn.parse(s).value.ip) <==> fam == IPv4)
    {
      ExtractMembership(syn, entries, fam, s);
      var i :| 0 <= i < |entries| && ContributesAs(syn, entries[i], fam, s);
      var c := Classify(syn, entries[i]).value;
      assert Reparse(syn, c.network) == Some(c.network);
    }
    assert forall s :: s in r.v4 ==> s in ListOf(r, IPv4);
    assert forall s :: s in r.v6 ==> s in ListOf(r, IPv6);
  }

  const Ten8: Net := Net([10, 0, 0, 0], 8)
  const Private16: Net := Net([192, 168, 0, 0], 16)
  const Doc32: Net := Net([0x20, 0x01, 0x0d, 0xb8, 0, 0, 0, 0, 0, 0, 0, 0, 0, 0, 0, 0], 32)

  /**
   Three entries, 10.0.0.0/8 of CN, 192.168.0.0/16 of US and 2001:db8::/32 of CN, give
   the first network alone in the IPv4 list and the third alone in the IPv6 list.
   */
  lemma ThreeEntryScenario(syn: CidrSyntax)
    requires Reparse(syn, Ten8) == Some(Ten8)
    requires Reparse(syn, Doc32) == Some(Doc32)
    ensures Extract(syn, [Record(Ten8, "CN"), Record(Private16, "US"), Record(Doc32, "CN")])
         == Lists([syn.format(Ten8)], [syn.format(Doc32)])
  {
    var es := [Record(Ten8, "CN"), Record(Private16, "US"), Record(Doc32, "CN")];
    assert es[..2] == [es[0], es[1]];
    assert es[..2][..1] == [es[0]];
    assert [es[0]][..0] == [];
    assert HasFourByteForm(Ten8.ip);
    assert !HasFourByteForm(Doc32.ip);
    assert Extract(syn, [es[0]]) == Lists([syn.format(Ten8)], []);
    assert Extract(syn, es[..2]) == Lists([syn.format(Ten8)], []);
  }
}
