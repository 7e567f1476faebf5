/** Line-oriented views of text, used to state the layout of the generated set files. */
module Lines {
  import opened Results

  /** The pieces of `s` between line breaks (Go's `strings.Split(s, "\n")`); never empty. */
  function Split(s: string): (r: seq<string>)
    ensures |r| >= 1
    ensures forall i :: 0 <= i < |r| ==> '\n' !in r[i]
  {
    if |s| == 0 then [""]
    else
      var rest := Split(s[1..]);
      if s[0] == '\n' then [""] + rest
      else [[s[0]] + rest[0]] + rest[1..]
  }

  /** The pieces joined with a line break between each two (Go's `strings.Join(lines, "\n")`). */
  function Join(lines: seq<string>): string
    requires |lines| >= 1
  {
    if |lines| == 1 then lines[0] else lines[0] + "\n" + Join(lines[1..])
  }

  /** The lines written one after another, each followed by a line break. */
  function Terminated(lines: seq<string>): string
  {
    if |lines| == 0 then "" else lines[0] + "\n" + Terminated(lines[1..])
  }

  /** True iff no line contains a line break. */
  predicate SingleLines(lines: seq<string>)
  {
    forall i :: 0 <= i < |lines| ==> '\n' !in lines[i]
  }

  /**
   The middle of `s` once `pre` is removed from its front and `suf` from its back, or
   `None` when `s` does not have that shape.
   */
  function StripAffix(s: string, pre: string, suf: string): (r: Option<string>)
    ensures r.Some? ==> s == pre + r.value + suf
  {
    if |pre| + |suf| <= |s| && s[..|pre|] == pre && s[|s| - |suf|..] == suf then
      var m := s[|pre|..|s| - |suf|];
      assert s == s[..|pre|] + m + s[|s| - |suf|..];
      Some(m)
    else None
  }

  /** Stripping the affixes a text was built with gives back its middle. */
  lemma StripAffixOf(pre: string, x: string, suf: string)
    ensures StripAffix(pre + x + suf, pre, suf) == Some(x)
  {
    var s := pre + x + suf;
    assert s[..|pre|] == pre;
    assert s[|s| - |suf|..] == suf;
    assert s[|pre|..|s| - |suf|] == x;
  }

  /** Splitting undoes joining and joining undoes splitting. */
  lemma {:induction false} JoinSplit(s: string)
    ensures Join(Split(s)) == s
    decreases |s|
  {
    if |s| > 0 {
      var rest := Split(s[1..]);
      JoinSplit(s[1..]);
      if s[0] == '\n' {
        assert ([""] + rest)[1..] == rest;
        assert s == "\n" + s[1..];
      } else {
        var r := [[s[0]] + rest[0]] + rest[1..];
        if |rest| > 1 {
          assert r[1..] == rest[1..];
        }
        assert s == [s[0]] + s[1..];
      }
    }
  }

  /** A line followed by a line break splits off as the first piece. */
  lemma {:induction false} SplitLine(a: string, b: string)
    requires '\n' !in a
    ensures Split(a + "\n" + b) == [a] + Split(b)
    decreases |a|
  {
    var s := a + "\n" + b;
    if |a| == 0 {
      assert s[0] == '\n' && s[1..] == b;
    } else {
      assert s[0] == a[0];
      assert s[1..] == a[1..] + "\n" + b;
      SplitLine(a[1..], b);
      assert [a[0]] + a[1..] == a;
    }
  }

  /** Line-terminated text splits into its lines and a final empty piece. */
  lemma {:induction false} SplitTerminated(lines: seq<string>)
    requires SingleLines(lines)
    ensures Split(Terminated(lines)) == lines + [""]
    decreases |lines|
  {
    if |lines| > 0 {
      SplitTerminated(lines[1..]);
      SplitLine(lines[0], Terminated(lines[1..]));
      assert lines == [lines[0]] + lines[1..];
    }
  }

  /** Joining the lines with one empty piece after them terminates every line. */
  lemma {:induction false} JoinTerminated(lines: seq<string>)
    ensures Join(lines + [""]) == Terminated(lines)
    decreases |lines|
  {
    if |lines| > 0 {
      JoinTerminated(lines[1..]);
      assert (lines + [""])[1..] == lines[1..] + [""];
    }
  }

  lemma {:induction false} TerminatedConcat(a: seq<string>, b: seq<string>)
    ensures Terminated(a + b) == Terminated(a) + Terminated(b)
    decreases |a|
  {
    if |a| == 0 {
      assert a + b == b;
    } else {
      TerminatedConcat(a[1..], b);
      assert (a + b)[1..] == a[1..] + b;
    }
  }
}
