/**
 The nftables set file that `writeSetFile` writes (main.go): a fixed header naming the
 set and its element type, one line per element in the given order, each with a
 trailing comma, and a fixed footer. Only the text is modelled, not the file it is
 written to. `ParseSet` reads such a text back and is the inverse of `Render`.
 */
module SetFile {
  import opened Results
  import opened Lines

  /** The contents of one set file: its name, element type and elements. */
  datatype SetSpec = SetSpec(name: string, addrType: string, elements: seq<string>)

  /** The four header lines, each with its line break. */
  function Header(name: string, addrType: string): string
  {
    "set " + name + " {\n" + "    type " + addrType + "\n" + "    flags interval\n" + "    elements = {\n"
  }

  /** The closing lines of the element list and of the set. */
  const Footer: string := "    }\n}\n"

  /** One element line: eight spaces of indentation, the element, a comma. */
  function ElementLine(item: string): string
  {
    "        " + item + ",\n"
  }

  function ElementLines(items: seq<string>): string
  {
    if |items| == 0 then "" else ElementLine(items[0]) + ElementLines(items[1..])
  }

  /** The text `writeSetFile(path, name, addrType, items)` writes. */
  function Render(name: string, addrType: string, items: seq<string>): (r: string)
    ensures Header(name, addrType) <= r
    ensures |r| >= |Footer| && r[|r| - |Footer|..] == Footer
  {
    var r := Header(name, addrType) + ElementLines(items) + Footer;
    assert r[..|Header(name, addrType)|] == Header(name, addrType);
    r
  }

  /** The lines of a set file, without their line breaks. */
  function SetLines(name: string, addrType: string, items: seq<string>): (ls: seq<string>)
  {
    ["set " + name + " {", "    type " + addrType, "    flags interval", "    elements = {"]
      + ItemLines(items)
      + ["    }", "}"]
  }

  function ItemLines(items: seq<string>): (ls: seq<string>)
  {
    seq(|items|, i requires 0 <= i < |items| => "        " + items[i] + ",")
  }

  /** The element lines of a set file; `None` unless every line is an element line. */
  function ParseElements(lines: seq<string>): (r: Option<seq<string>>)
  {
    if |lines| == 0 then Some([])
    else
      match (StripAffix(lines[0], "        ", ","), ParseElements(lines[1..]))
      case (Some(x), Some(xs)) => Some([x] + xs)
      case _ => None
  }

  /** Reads a set file's text back into its name, type and elements. */
  function ParseSet(text: string): (r: Option<SetSpec>)
  {
    var lines := Split(text);
    var n := |lines|;
    if n < 7 || lines[n - 1] != "" || lines[n - 2] != "}" || lines[n - 3] != "    }"
       || lines[2] != "    flags interval" || lines[3] != "    elements = {" then None
    else
      match (StripAffix(lines[0], "set ", " {"), StripAffix(lines[1], "    type ", ""), ParseElements(lines[4..n - 3]))
      case (Some(name), Some(addrType), Some(items)) => Some(SetSpec(name, addrType, items))
      case _ => None
  }

  lemma {:induction false} ElementLinesTerminated(items: seq<string>)
    ensures ElementLines(items) == Terminated(ItemLines(items))
    decreases |items|
  {
    if |items| > 0 {
      ElementLinesTerminated(items[1..]);
      assert ItemLines(items)[1..] == ItemLines(items[1..]);
    }
  }

  /** The rendered text is the set file's lines, each ended by a line break. */
  lemma RenderTerminated(name: string, addrType: string, items: seq<string>)
    ensures Render(name, addrType, items) == Terminated(SetLines(name, addrType, items))
  {
    var head := ["set " + name + " {", "    type " + addrType, "    flags interval", "    elements = {"];
    var foot := ["    }", "}"];
    ElementLinesTerminated(items);
    TerminatedConcat(head + ItemLines(items), foot);
    TerminatedConcat(head, ItemLines(items));
    assert Terminated(head[1..][1..][1..]) == "    elements = {\n";
    assert Terminated(head[1..][1..]) == "    flags interval\n" + "    elements = {\n";
    assert Terminated(head[1..]) == "    type " + addrType + "\n" + "    flags interval\n" + "    elements = {\n";
    assert Terminated(head) == Header(name, addrType);
    assert Terminated(foot[1..]) == "}\n";
    assert Terminated(foot) == Footer;
  }

  /** An empty element list still gives the full frame with an empty element block. */
  lemma RenderEmpty(name: string, addrType: string)
    ensures Render(name, addrType, []) == "set " + name + " {\n    type " + addrType + "\n    flags interval\n    elements = {\n    }\n}\n"
  {
    var a := "set " + name;
    var b := a + " {\n    type " + addrType;
    HeaderJoint();
    FooterJoint();
    assert ElementLines([]) == "";
    assert Render(name, addrType, []) == b + ("\n" + "    flags interval\n" + "    elements = {\n" + Footer);
  }

  /** The header's first two pieces, written together as one literal. */
  lemma HeaderJoint()
    ensures " {\n" + "    type " == " {\n    type "
  {
  }

  /** The header's last pieces and the footer, written together as one literal. */
  lemma FooterJoint()
    ensures "\n" + "    flags interval\n" + "    elements = {\n" + Footer == "\n    flags interval\n    elements = {\n    }\n}\n"
  {
    var t := "\n" + "    flags interval\n";
    assert t == "\n    flags interval\n";
    t := t + "    elements = {\n";
    assert t == "\n    flags interval\n    elements = {\n";
  }

  /**
   With no line break inside the name, the type or an element, the text splits into
   exactly the header lines, one line per element in order, the footer lines and the
   empty piece after the final line break.
   */
  lemma RenderLines(name: string, addrType: string, items: seq<string>)
    requires '\n' !in name && '\n' !in addrType && SingleLines(items)
    ensures Split(Render(name, addrType, items)) == SetLines(name, addrType, items) + [""]
    ensures forall i :: 0 <= i < |items| ==> Split(Render(name, addrType, items))[4 + i] == "        " + items[i] + ","
  {
    RenderTerminated(name, addrType, items);
    SplitTerminated(SetLines(name, addrType, items));
  }

  lemma {:induction false} ParseItemLines(items: seq<string>)
    ensures ParseElements(ItemLines(items)) == Some(items)
    decreases |items|
  {
    if |items| > 0 {
      ParseItemLines(items[1..]);
      assert ItemLines(items)[1..] == ItemLines(items[1..]);
      StripAffixOf("        ", items[0], ",");
      assert [items[0]] + items[1..] == items;
    }
  }

  lemma {:induction false} ItemLinesOfParse(lines: seq<string>, items: seq<string>)
    requires ParseElements(lines) == Some(items)
    ensures lines == ItemLines(items)
    decreases |lines|
  {
    if |lines| > 0 {
      var x := StripAffix(lines[0], "        ", ",").value;
      var xs := ParseElements(lines[1..]).value;
      ItemLinesOfParse(lines[1..], xs);
      assert items == [x] + xs;
      assert lines == [lines[0]] + lines[1..];
    }
  }

  /** Parsing a rendered set file recovers its name, type and elements. */
  lemma ParseRender(name: string, addrType: string, items: seq<string>)
    requires '\n' !in name && '\n' !in addrType && SingleLines(items)
    ensures ParseSet(Render(name, addrType, items)) == Some(SetSpec(name, addrType, items))
  {
    var lines := Split(Render(name, addrType, items));
    RenderLines(name, addrType, items);
    var n := |lines|;
    assert lines[4..n - 3] == ItemLines(items);
    ParseItemLines(items);
    StripAffixOf("set ", name, " {");
    StripAffixOf("    type ", addrType, "");
    assert "    type " + addrType + "" == "    type " + addrType;
  }

  /** The lines of a text that parses are the lines of the set file it parses to. */
  lemma ParsedLines(text: string, spec: SetSpec)
    requires ParseSet(text) == Some(spec)
    ensures Split(text) == SetLines(spec.name, spec.addrType, spec.elements) + [""]
  {
    var lines := Split(text);
    var n := |lines|;
    var name := StripAffix(lines[0], "set ", " {").value;
    var addrType := StripAffix(lines[1], "    type ", "").value;
    var items := ParseElements(lines[4..n - 3]).value;
    assert spec == SetSpec(name, addrType, items);
    ItemLinesOfParse(lines[4..n - 3], items);
    assert lines[1] == "    type " + addrType;
    assert lines == lines[..4] + lines[4..n - 3] + lines[n - 3..];
  }

  /** A middle stripped from a line contains no line break. */
  lemma StrippedSingleLine(line: string, pre: string, suf: string)
    requires '\n' !in line && StripAffix(line, pre, suf).Some?
    ensures '\n' !in StripAffix(line, pre, suf).value
  {
    var x := StripAffix(line, pre, suf).value;
    assert forall k :: 0 <= k < |x| ==> x[k] == line[|pre| + k];
  }

  /** Only rendered set files parse: a text that parses is the rendering of what it parses to. */
  lemma ParsedIsRendered(text: string, spec: SetSpec)
    requires ParseSet(text) == Some(spec)
    ensures text == Render(spec.name, spec.addrType, spec.elements)
    ensures '\n' !in spec.name && '\n' !in spec.addrType && SingleLines(spec.elements)
  {
    var lines := Split(text);
    var ls := SetLines(spec.name, spec.addrType, spec.elements);
    ParsedLines(text, spec);
    JoinSplit(text);
    JoinTerminated(ls);
    RenderTerminated(spec.name, spec.addrType, spec.elements);
    StrippedSingleLine(lines[0], "set ", " {");
    StrippedSingleLine(lines[1], "    type ", "");
    var n := |lines|;
    ParsedElementsSingleLine(lines[4..n - 3]);
  }

  lemma {:induction false} ParsedElementsSingleLine(lines: seq<string>)
    requires SingleLines(lines) && ParseElements(lines).Some?
    ensures SingleLines(ParseElements(lines).value)
    decreases |lines|
  {
    if |lines| > 0 {
      ParsedElementsSingleLine(lines[1..]);
      StrippedSingleLine(lines[0], "        ", ",");
    }
  }
}
