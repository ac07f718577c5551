/**
  The interface-header pattern of index.js,

      /^export\s+interface\s+(\w*).*$/i

  written out by hand. Without the `m` flag the match must start at the start
  of the line and `$` is its end; `.` refuses line terminators; the `i` flag
  folds ASCII case only. The greedy `\s+` runs cannot give anything back that
  helps, and giving back part of the name only moves it into `.*`, so the line
  matches iff what follows the longest name holds no line terminator.
 */
module HeaderLine {
  import opened Wrappers
  import opened CharClasses

  /**
    One way of matching: `export` at 0, whitespace [6, a), `interface` at a,
    whitespace [a + 9, b), the captured word run [b, e) and then `.*` to the end.
   */
  predicate IsHeader(line: string, a: nat, b: nat, e: nat)
  {
    && HasWordAt(line, 0, "export")
    && 6 < a && a + 9 < b <= e <= |line|
    && All(line, 6, a, Space)
    && HasWordAt(line, a, "interface")
    && All(line, a + 9, b, Space)
    && All(line, b, e, Word)
    && NoLineTerminator(line, e, |line|)
  }

  /** `line.match(classLineRe)[1]`: the captured interface name, or None when the line does not match. */
  function HeaderMatch(line: string): Option<string>
  {
    if !HasWordAt(line, 0, "export") then None
    else
      var a := RunEnd(line, 6, Space);
      if a == 6 || !HasWordAt(line, a, "interface") then None
      else
        var b := RunEnd(line, a + 9, Space);
        if b == a + 9 then None
        else
          var e := RunEnd(line, b, Word);
          if NoLineTerminator(line, e, |line|) then Some(line[b..e]) else None
  }

  /**
    HeaderMatch is the regular expression's match: the line matches iff some
    way of matching exists, and the captured name is a word run that cannot be
    extended (the greedy `(\w*)`), possibly empty.
   */
  lemma HeaderMatchCharacterised(line: string)
    ensures HeaderMatch(line).Some? <==> exists a: nat, b: nat, e: nat :: IsHeader(line, a, b, e)
    ensures HeaderMatch(line).Some? ==>
      exists a: nat, b: nat, e: nat :: IsHeader(line, a, b, e) && HeaderMatch(line).value == line[b..e]
        && (e == |line| || !IsWord(line[e]))
  {
    if HeaderMatch(line).Some? {
      var a := RunEnd(line, 6, Space);
      var b := RunEnd(line, a + 9, Space);
      var e := RunEnd(line, b, Word);
      assert IsHeader(line, a, b, e);
    }
    if exists a: nat, b: nat, e: nat :: IsHeader(line, a, b, e) {
      var a, b, e :| IsHeader(line, a, b, e);
      HeaderPositionsForced(line, a, b, e);
    }
  }

  /** Any way of matching leads the greedy scan through the same `interface` and to a name at least as long. */
  lemma HeaderPositionsForced(line: string, a: nat, b: nat, e: nat)
    requires IsHeader(line, a, b, e)
    ensures RunEnd(line, 6, Space) == a
    ensures b <= RunEnd(line, a + 9, Space)
    ensures e <= RunEnd(line, RunEnd(line, a + 9, Space), Word)
    ensures HeaderMatch(line).Some?
  {
    assert LowerAscii(line[a + 0]) == "interface"[0];
    RunEndUnique(line, 6, a, Space);
    RunEndCovers(line, a + 9, b, Space);
    var b' := RunEnd(line, a + 9, Space);
    if b' == b {
      RunEndCovers(line, b, e, Word);
    } else {
      assert In(line[b], Space);
    }
  }

  /** When the name in a way of matching cannot be extended on either side, it is the captured name. */
  lemma HeaderCapturesName(line: string, a: nat, b: nat, e: nat)
    requires IsHeader(line, a, b, e)
    requires b == |line| || !In(line[b], Space)
    requires e == |line| || !IsWord(line[e])
    ensures HeaderMatch(line) == Some(line[b..e])
  {
    HeaderPositionsForced(line, a, b, e);
    RunEndUnique(line, a + 9, b, Space);
    RunEndUnique(line, b, e, Word);
  }

  /** t is the lower-case ASCII word w written in any ASCII case. */
  predicate Folds(t: string, w: string)
  {
    |t| == |w| && forall k | 0 <= k < |t| :: LowerAscii(t[k]) == w[k]
  }

  /** Where the parts of a header line lie, and that they form a way of matching with a maximal name. */
  lemma HeaderLineSpan(kw1: string, ws1: string, kw2: string, ws2: string, name: string, rest: string)
    requires Folds(kw1, "export") && Folds(kw2, "interface")
    requires |ws1| > 0 && AllIn(ws1, Space) && |ws2| > 0 && AllIn(ws2, Space)
    requires AllIn(name, Word) && NoLineTerminator(rest, 0, |rest|)
    requires rest == [] || (!IsWord(rest[0]) && (|name| > 0 || !In(rest[0], Space)))
    ensures var line := kw1 + ws1 + kw2 + ws2 + name + rest;
      var a := 6 + |ws1|; var b := a + 9 + |ws2|; var e := b + |name|;
      && IsHeader(line, a, b, e)
      && (b == |line| || !In(line[b], Space))
      && (e == |line| || !IsWord(line[e]))
      && line[b..e] == name
  {
    var line := kw1 + ws1 + kw2 + ws2 + name + rest;
    var a := 6 + |ws1|;
    var b := a + 9 + |ws2|;
    var e := b + |name|;
    assert HasWordAt(line, 0, "export") by {
      assert forall k | 0 <= k < 6 :: line[k] == kw1[k];
    }
    assert All(line, 6, a, Space) by {
      assert forall k | 6 <= k < a :: line[k] == ws1[k - 6];
    }
    assert HasWordAt(line, a, "interface") by {
      assert forall k | 0 <= k < 9 :: line[a + k] == kw2[k];
    }
    assert All(line, a + 9, b, Space) by {
      assert forall k | a + 9 <= k < b :: line[k] == ws2[k - a - 9];
    }
    assert line[b..e] == name;
    assert All(line, b, e, Word) by {
      assert forall k | b <= k < e :: line[k] == name[k - b];
    }
    assert NoLineTerminator(line, e, |line|) by {
      assert forall k | e <= k < |line| :: line[k] == rest[k - e];
    }
    if e < |line| {
      assert line[e] == rest[0];
    }
    if b < |line| && b == e {
      assert line[b] == rest[0];
    }
  }

  /**
    A header read back: `export`, whitespace, `interface`, whitespace, a word
    and a rest that does not continue the word, in any ASCII case, captures
    exactly that word.
   */
  lemma HeaderLineRoundTrip(kw1: string, ws1: string, kw2: string, ws2: string, name: string, rest: string)
    requires Folds(kw1, "export") && Folds(kw2, "interface")
    requires |ws1| > 0 && AllIn(ws1, Space) && |ws2| > 0 && AllIn(ws2, Space)
    requires AllIn(name, Word) && NoLineTerminator(rest, 0, |rest|)
    requires rest == [] || (!IsWord(rest[0]) && (|name| > 0 || !In(rest[0], Space)))
    ensures HeaderMatch(kw1 + ws1 + kw2 + ws2 + name + rest) == Some(name)
  {
    var a := 6 + |ws1|;
    var b := a + 9 + |ws2|;
    HeaderLineSpan(kw1, ws1, kw2, ws2, name, rest);
    HeaderCapturesName(kw1 + ws1 + kw2 + ws2 + name + rest, a, b, b + |name|);
  }

  /** The usual spelling, `export interface ` followed by a name and the rest of the line. */
  lemma ExportInterfaceCaptures(name: string, rest: string)
    requires AllIn(name, Word) && NoLineTerminator(rest, 0, |rest|)
    requires rest == [] || (!IsWord(rest[0]) && (|name| > 0 || !In(rest[0], Space)))
    ensures HeaderMatch("export interface " + name + rest) == Some(name)
  {
    assert "export interface " + name + rest == "export" + " " + "interface" + " " + name + rest;
    HeaderLineRoundTrip("export", " ", "interface", " ", name, rest);
  }

  /** A typical header, matched case-insensitively, with text after the name. */
  lemma HeaderExample(line: string)
    requires line == "Export Interface User {"
    ensures HeaderMatch(line) == Some("User")
  {
    assert line == "Export" + " " + "Interface" + " " + "User" + " {";
    HeaderLineRoundTrip("Export", " ", "Interface", " ", "User", " {");
  }

  /** The usual lower-case header captures its name. */
  lemma LowerCaseHeaderExample(line: string)
    requires line == "export interface User {"
    ensures HeaderMatch(line) == Some("User")
  {
    assert line == "export interface " + "User" + " {";
    ExportInterfaceCaptures("User", " {");
  }

  /** `export interface {` matches with an empty name. */
  lemma EmptyNameExample(line: string)
    requires line == "export interface {"
    ensures HeaderMatch(line) == Some("")
  {
    assert line == "export interface " + "" + "{";
    ExportInterfaceCaptures("", "{");
  }

  /** The pattern has no leading `\s*`: an indented header does not match. */
  lemma IndentedHeaderExample(line: string)
    requires line == "  export interface User {"
    ensures HeaderMatch(line).None?
  {
    assert LowerAscii(line[0]) != 'e';
  }
}
