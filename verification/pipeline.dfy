/**
 The part of `main` (main.go) that turns the database iteration into the two nftables
 set files: the IPv4 networks of the target country become the set "cn4" of type
 "ipv4_addr" and the IPv6 networks the set "cn6" of type "ipv6_addr".
 */
module Pipeline {
  import opened Results
  import opened Network
  import opened Lines
  import opened Extraction
  import opened SetFile

  const OutCn4: string := "/etc/nftables.d/cn4.nft"
  const OutCn6: string := "/etc/nftables.d/cn6.nft"

  /** A file the run overwrites, with the whole text written to it. */
  datatype GeneratedFile = GeneratedFile(path: string, text: string)

  /** The two set files generated from one pass over the database, IPv4 first. */
  function SetFiles(syn: CidrSyntax, entries: seq<Entry>): (files: seq<GeneratedFile>)
    ensures |files| == 2 && files[0].path == OutCn4 && files[1].path == OutCn6
  {
    var lists := Extract(syn, entries);
    [GeneratedFile(OutCn4, Render("cn4", "ipv4_addr", lists.v4)),
     GeneratedFile(OutCn6, Render("cn6", "ipv6_addr", lists.v6))]
  }

  /** With single-line CIDR texts, neither list holds a text with a line break. */
  lemma ListsSingleLine(syn: CidrSyntax, entries: seq<Entry>)
    requires SingleLine(syn)
    ensures SingleLines(Extract(syn, entries).v4) && SingleLines(Extract(syn, entries).v6)
  {
    var r := Extract(syn, entries);
    forall fam, k | 0 <= k < |ListOf(r, fam)|
      ensures '\n' !in ListOf(r, fam)[k]
    {
      var s := ListOf(r, fam)[k];
      ExtractMembership(syn, entries, fam, s);
      var i :| 0 <= i < |entries| && ContributesAs(syn, entries[i], fam, s);
      assert s == syn.format(Classify(syn, entries[i]).value.network);
    }
    assert r.v4 == ListOf(r, IPv4) && r.v6 == ListOf(r, IPv6);
  }

  /**
   Each generated file reads back as its set: "cn4" of type "ipv4_addr" holding the
   IPv4 list and "cn6" of type "ipv6_addr" holding the IPv6 list, in iteration order.
   */
  lemma SetFilesParse(syn: CidrSyntax, entries: seq<Entry>)
    requires SingleLine(syn)
    ensures ParseSet(SetFiles(syn, entries)[0].text) == Some(SetSpec("cn4", "ipv4_addr", Extract(syn, entries).v4))
    ensures ParseSet(SetFiles(syn, entries)[1].text) == Some(SetSpec("cn6", "ipv6_addr", Extract(syn, entries).v6))
  {
    var r := Extract(syn, entries);
    ListsSingleLine(syn, entries);
    ParseRender("cn4", "ipv4_addr", r.v4);
    ParseRender("cn6", "ipv6_addr", r.v6);
  }
}
