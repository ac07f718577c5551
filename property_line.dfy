/**
  The property-line pattern of index.js,

      /^\s*(\w+)[\s?:]*(\w+)([\[\]]*);$/im

  written out by hand. Under the `m` flag `^` matches at the start of the line
  or after a line terminator and `$` at its end or before one, so a match is
  searched for at every such start, leftmost first. At one start the greedy
  `\s*` and `[\s?:]*` and `[\[\]]*` never give anything back that could help,
  and the greedy first `\w+` is tried whole and then one character shorter
  (in which case the second `\w+` is that last character); every shorter name
  fails in the same way as that one.
 */
module PropertyLine {
  import opened Wrappers
  import opened CharClasses

  /** One matched field: the two captured words and whether the bracket group captured anything. */
  datatype Property = Property(name: string, typeName: string, isArray: bool)

  /**
    Where a match lies in the line: the whitespace [start, nameStart), the name
    [nameStart, nameEnd), the separators [nameEnd, typeStart), the type
    [typeStart, typeEnd), the brackets [typeEnd, semi) and the `;` at semi.
   */
  datatype Span = Span(start: nat, nameStart: nat, nameEnd: nat, typeStart: nat, typeEnd: nat, semi: nat)

  /** `^` under the `m` flag. */
  predicate AtLineStart(s: string, i: nat)
    requires i <= |s|
  {
    i == 0 || IsLineTerminator(s[i - 1])
  }

  /** `;$` under the `m` flag: a semicolon at i that ends the line or stands before a line terminator. */
  predicate SemicolonEndsAt(s: string, i: nat)
  {
    i < |s| && s[i] == ';' && (i + 1 == |s| || IsLineTerminator(s[i + 1]))
  }

  /** d is one way of matching the whole pattern against s. */
  predicate IsMatch(s: string, d: Span)
  {
    && d.start <= d.nameStart < d.nameEnd <= d.typeStart < d.typeEnd <= d.semi < |s|
    && AtLineStart(s, d.start)
    && All(s, d.start, d.nameStart, Space)
    && All(s, d.nameStart, d.nameEnd, Word)
    && All(s, d.nameEnd, d.typeStart, Separator)
    && All(s, d.typeStart, d.typeEnd, Word)
    && All(s, d.typeEnd, d.semi, Bracket)
    && SemicolonEndsAt(s, d.semi)
  }

  /** The regular expression's priority between two matches: leftmost start, then the longer name. */
  predicate Preferred(d: Span, e: Span)
  {
    d.start < e.start || (d.start == e.start && e.nameEnd <= d.nameEnd)
  }

  /** The match attempt at one start position. */
  function MatchAt(s: string, p: nat): (r: Option<Span>)
    requires p <= |s| && AtLineStart(s, p)
    ensures r.Some? ==> IsMatch(s, r.value) && r.value.start == p
  {
    var a := RunEnd(s, p, Space);
    var w := RunEnd(s, a, Word);
    if w == a then None
    else
      var t0 := RunEnd(s, w, Separator);
      var t1 := RunEnd(s, t0, Word);
      var b := RunEnd(s, t1, Bracket);
      if t1 > t0 && SemicolonEndsAt(s, b) then
        Some(Span(p, a, w, t0, t1, b))
      else
        var b' := RunEnd(s, w, Bracket);
        if w - a >= 2 && SemicolonEndsAt(s, b') then
          Some(Span(p, a, w - 1, w - 1, w, b'))
        else
          None
  }

  /** A match whose name is the whole greedy word run is exactly the first attempt. */
  lemma MatchAtWholeName(s: string, e: Span)
    requires IsMatch(s, e)
    requires RunEnd(s, RunEnd(s, e.start, Space), Word) == e.nameEnd
    ensures MatchAt(s, e.start) == Some(e)
  {
    RunEndUnique(s, e.start, e.nameStart, Space);
    RunEndUnique(s, e.nameEnd, e.typeStart, Separator);
    RunEndUnique(s, e.typeStart, e.typeEnd, Word);
    RunEndUnique(s, e.typeEnd, e.semi, Bracket);
  }

  /** A match whose name stops inside the greedy word run is covered by one of the two attempts. */
  lemma MatchAtShorterName(s: string, e: Span)
    requires IsMatch(s, e)
    requires e.nameEnd < RunEnd(s, RunEnd(s, e.start, Space), Word)
    ensures MatchAt(s, e.start).Some? && e.nameEnd <= MatchAt(s, e.start).value.nameEnd
  {
    RunEndUnique(s, e.start, e.nameStart, Space);
    var w := RunEnd(s, e.nameStart, Word);
    assert IsWord(s[e.nameEnd]);
    assert e.typeStart == e.nameEnd;
    RunEndUnique(s, e.typeStart, e.typeEnd, Word);
    assert All(s, e.typeStart, w, Word);
    RunEndUnique(s, e.typeStart, w, Word);
    RunEndUnique(s, w, e.semi, Bracket);
  }

  /** Every match at start p is found by MatchAt, which returns one whose name is at least as long. */
  lemma MatchAtComplete(s: string, e: Span)
    requires IsMatch(s, e)
    ensures MatchAt(s, e.start).Some?
    ensures Preferred(MatchAt(s, e.start).value, e)
  {
    RunEndUnique(s, e.start, e.nameStart, Space);
    RunEndCovers(s, e.nameStart, e.nameEnd, Word);
    if RunEnd(s, e.nameStart, Word) == e.nameEnd {
      MatchAtWholeName(s, e);
    } else {
      MatchAtShorterName(s, e);
    }
  }

  /** At one start, the name's end fixes the whole match. */
  lemma MatchDeterminedByName(s: string, d: Span, e: Span)
    requires IsMatch(s, d) && IsMatch(s, e)
    requires d.start == e.start && d.nameEnd == e.nameEnd
    ensures d == e
  {
    RunEndUnique(s, d.start, d.nameStart, Space);
    RunEndUnique(s, e.start, e.nameStart, Space);
    if d.nameEnd < d.typeStart {
      RunEndUnique(s, d.nameEnd, d.typeStart, Separator);
    }
    if e.nameEnd < e.typeStart {
      RunEndUnique(s, e.nameEnd, e.typeStart, Separator);
    }
    assert d.typeStart == e.typeStart;
    RunEndUnique(s, d.typeStart, d.typeEnd, Word);
    RunEndUnique(s, e.typeStart, e.typeEnd, Word);
    RunEndUnique(s, d.typeEnd, d.semi, Bracket);
    RunEndUnique(s, e.typeEnd, e.semi, Bracket);
  }

  /** The first position from p up to n at which f holds, if any. */
  function FirstFrom(p: nat, n: nat, f: nat -> bool): (r: Option<nat>)
    requires p <= n
    ensures r.Some? ==> p <= r.value <= n && f(r.value)
    ensures r.Some? ==> forall q | p <= q < r.value :: !f(q)
    ensures r.None? ==> forall q | p <= q <= n :: !f(q)
    decreases n - p
  {
    if f(p) then Some(p)
    else if p == n then None
    else FirstFrom(p + 1, n, f)
  }

  /** The attempt at position q is made (q is a line start) and succeeds. */
  predicate Succeeds(s: string, q: nat)
  {
    q <= |s| && AtLineStart(s, q) && MatchAt(s, q).Some?
  }

  /** The search over start positions p, p+1, ...: the first line start at which MatchAt succeeds. */
  function MatchFrom(s: string, p: nat): (r: Option<Span>)
    requires p <= |s|
    ensures r.Some? ==> IsMatch(s, r.value) && p <= r.value.start
  {
    match FirstFrom(p, |s|, (q: nat) => Succeeds(s, q))
    case Some(q) => MatchAt(s, q)
    case None => None
  }

  /** Every match at or after p is found, and the one found is preferred to it. */
  lemma MatchFromComplete(s: string, p: nat, e: Span)
    requires p <= e.start && IsMatch(s, e)
    ensures MatchFrom(s, p).Some? && Preferred(MatchFrom(s, p).value, e)
  {
    MatchAtComplete(s, e);
    var f := (q: nat) => Succeeds(s, q);
    assert f(e.start);
    var r := FirstFrom(p, |s|, f);
    assert r.Some? && r.value <= e.start;
  }

  /** `line.match(propertyLineRe)`, as positions. */
  function MatchSpan(line: string): Option<Span>
  {
    MatchFrom(line, 0)
  }

  /** The three capture groups of a match. */
  function PropertyOf(line: string, d: Span): (p: Property)
    requires IsMatch(line, d)
  {
    Property(line[d.nameStart..d.nameEnd], line[d.typeStart..d.typeEnd], d.typeEnd < d.semi)
  }

  /** The property record index.js:191-195 builds from a match, or None when the line does not match. */
  function PropertyMatch(line: string): Option<Property>
  {
    match MatchSpan(line)
    case None => None
    case Some(d) => Some(PropertyOf(line, d))
  }

  /**
    MatchSpan is exactly the regular expression's match: it is a match, and a
    line has a match iff MatchSpan finds one, which is preferred to every
    other match (leftmost, then longest name) and so is the only such one.
   */
  lemma MatchSpanIsPreferredMatch(line: string)
    ensures MatchSpan(line).Some? ==> IsMatch(line, MatchSpan(line).value)
    ensures forall e | IsMatch(line, e) ::
      MatchSpan(line).Some? && Preferred(MatchSpan(line).value, e)
    ensures forall e | IsMatch(line, e) && Preferred(e, MatchSpan(line).value) ::
      e == MatchSpan(line).value
  {
    forall e | IsMatch(line, e)
      ensures MatchSpan(line).Some? && Preferred(MatchSpan(line).value, e)
    {
      MatchFromComplete(line, 0, e);
    }
    forall e | IsMatch(line, e) && Preferred(e, MatchSpan(line).value)
      ensures e == MatchSpan(line).value
    {
      MatchFromComplete(line, 0, e);
      MatchDeterminedByName(line, e, MatchSpan(line).value);
    }
  }

  /** The groups of one match: non-empty word captures, and isArray iff a bracket stands before the `;`. */
  lemma PropertyOfShape(line: string, d: Span)
    requires IsMatch(line, d)
    ensures var p := PropertyOf(line, d);
      && |p.name| > 0 && |p.typeName| > 0
      && (forall k | 0 <= k < |p.name| :: IsWord(p.name[k]))
      && (forall k | 0 <= k < |p.typeName| :: IsWord(p.typeName[k]))
      && (p.isArray <==> In(line[d.semi - 1], Bracket))
  {
    var p := PropertyOf(line, d);
    assert forall k | 0 <= k < |p.name| :: p.name[k] == line[d.nameStart + k];
    assert forall k | 0 <= k < |p.typeName| :: p.typeName[k] == line[d.typeStart + k];
    if d.typeEnd == d.semi {
      assert In(line[d.typeEnd - 1], Word);
    }
  }

  /** On a line without line terminators, a match's `;` is the line's last character. */
  lemma SemicolonIsLast(line: string, d: Span)
    requires IsMatch(line, d) && NoLineTerminator(line, 0, |line|)
    ensures d.semi == |line| - 1
  {
  }

  /**
    What a match guarantees about the captured field: name and type are
    non-empty words, isArray says whether a bracket stands right before the
    `;`, and on a line without line terminators (every line the line reader
    yields, unless the file holds U+2028 or U+2029) the line ends with that `;`.
   */
  lemma MatchedPropertyShape(line: string)
    requires PropertyMatch(line).Some?
    ensures var p := PropertyMatch(line).value;
      && |p.name| > 0 && |p.typeName| > 0
      && (forall k | 0 <= k < |p.name| :: IsWord(p.name[k]))
      && (forall k | 0 <= k < |p.typeName| :: IsWord(p.typeName[k]))
    ensures var p := PropertyMatch(line).value; var d := MatchSpan(line).value;
      p.isArray <==> In(line[d.semi - 1], Bracket)
    ensures NoLineTerminator(line, 0, |line|) ==>
      && line[|line| - 1] == ';'
      && MatchSpan(line).value.semi == |line| - 1
      && (PropertyMatch(line).value.isArray <==> In(line[|line| - 2], Bracket))
  {
    var d := MatchSpan(line).value;
    assert PropertyMatch(line).value == PropertyOf(line, d);
    PropertyOfShape(line, d);
    if NoLineTerminator(line, 0, |line|) {
      SemicolonIsLast(line, d);
    }
  }

  /** Text after the `;`, or no `;` at the end, means no match (on a line without line terminators). */
  lemma NoMatchWithoutFinalSemicolon(line: string)
    requires NoLineTerminator(line, 0, |line|)
    requires |line| == 0 || line[|line| - 1] != ';'
    ensures PropertyMatch(line).None?
  {
    if PropertyMatch(line).Some? {
      MatchedPropertyShape(line);
    }
  }

  /** The character before the final `;` must end the type or the brackets (on a line without line terminators). */
  lemma NoMatchWithoutTypeBeforeSemicolon(line: string)
    requires NoLineTerminator(line, 0, |line|)
    requires |line| < 2 || !(IsWord(line[|line| - 2]) || In(line[|line| - 2], Bracket))
    ensures PropertyMatch(line).None?
  {
    if PropertyMatch(line).Some? {
      SemicolonIsLast(line, MatchSpan(line).value);
    }
  }

  /** A match at the first start whose name cannot be extended is the match. */
  lemma MaximalNameIsTheMatch(s: string, e: Span)
    requires IsMatch(s, e) && e.start == 0
    requires e.nameEnd == |s| || !IsWord(s[e.nameEnd])
    ensures MatchSpan(s) == Some(e)
  {
    RunEndUnique(s, 0, e.nameStart, Space);
    RunEndUnique(s, e.nameStart, e.nameEnd, Word);
    MatchAtWholeName(s, e);
    var f := (q: nat) => Succeeds(s, q);
    assert f(0);
  }

  /** Where the parts of a field line lie, and that they form a match whose name cannot be extended. */
  lemma FieldLineSpan(ws: string, name: string, sep: string, ty: string, br: string)
    requires AllIn(ws, Space) && AllIn(name, Word) && AllIn(sep, Separator)
    requires AllIn(ty, Word) && AllIn(br, Bracket)
    requires |name| > 0 && |sep| > 0 && |ty| > 0
    ensures var line := ws + name + sep + ty + br + ";";
      var b := |ws| + |name|; var d := b + |sep| + |ty|;
      && IsMatch(line, Span(0, |ws|, b, b + |sep|, d, d + |br|))
      && !IsWord(line[b])
      && line[|ws|..b] == name && line[b + |sep|..d] == ty
  {
    var line := ws + name + sep + ty + br + ";";
    var a := |ws|;
    var b := a + |name|;
    var c := b + |sep|;
    var d := c + |ty|;
    var f := d + |br|;
    assert forall k | 0 <= k < a :: line[k] == ws[k];
    assert forall k | a <= k < b :: line[k] == name[k - a];
    assert forall k | b <= k < c :: line[k] == sep[k - b];
    assert forall k | c <= k < d :: line[k] == ty[k - c];
    assert forall k | d <= k < f :: line[k] == br[k - d];
    assert line[f] == ';';
    assert line[a..b] == name;
    assert line[c..d] == ty;
  }

  /**
    A field declaration read back: indentation, a name, a non-empty run of
    separators, a type and brackets, followed by the final `;`, parse to
    that name and type, with isArray iff there are brackets.
   */
  lemma FieldLineRoundTrip(ws: string, name: string, sep: string, ty: string, br: string)
    requires AllIn(ws, Space) && AllIn(name, Word) && AllIn(sep, Separator)
    requires AllIn(ty, Word) && AllIn(br, Bracket)
    requires |name| > 0 && |sep| > 0 && |ty| > 0
    ensures PropertyMatch(ws + name + sep + ty + br + ";") == Some(Property(name, ty, |br| > 0))
  {
    var line := ws + name + sep + ty + br + ";";
    var b := |ws| + |name|;
    var d := b + |sep| + |ty|;
    var e := Span(0, |ws|, b, b + |sep|, d, d + |br|);
    FieldLineSpan(ws, name, sep, ty, br);
    MaximalNameIsTheMatch(line, e);
    assert PropertyMatch(line) == Some(PropertyOf(line, e));
  }

  /** The greedy name: in `abc;` the name keeps all it can and leaves one character for the type. */
  lemma GreedyNameExample(line: string)
    requires line == "abc;"
    ensures PropertyMatch(line) == Some(Property("ab", "c", false))
  {
    RunEndUnique(line, 0, 0, Space);
    RunEndUnique(line, 0, 3, Word);
    RunEndUnique(line, 3, 3, Separator);
    RunEndUnique(line, 3, 3, Word);
    RunEndUnique(line, 3, 3, Bracket);
    assert MatchAt(line, 0) == Some(Span(0, 0, 2, 2, 3, 3));
    assert line[0..2] == "ab" && line[2..3] == "c";
  }

  /** An optional field: `?: ` is one separator run. */
  lemma OptionalFieldExample(line: string)
    requires line == "  name?: string;"
    ensures PropertyMatch(line) == Some(Property("name", "string", false))
  {
    assert line == "  " + "name" + "?: " + "string" + "" + ";";
    FieldLineRoundTrip("  ", "name", "?: ", "string", "");
  }

  /** An array field: the bracket group is non-empty. */
  lemma ArrayFieldExample(line: string)
    requires line == "\ttags: string[];"
    ensures PropertyMatch(line) == Some(Property("tags", "string", true))
  {
    assert line == "\t" + "tags" + ": " + "string" + "[]" + ";";
    FieldLineRoundTrip("\t", "tags", ": ", "string", "[]");
  }

  /** A generic type is not a word, so the line is dropped. */
  lemma GenericTypeExample(line: string)
    requires line == "  tags: Array<string>;"
    ensures PropertyMatch(line).None?
  {
    assert NoLineTerminator(line, 0, |line|);
    assert line[|line| - 2] == '>';
    NoMatchWithoutTypeBeforeSemicolon(line);
  }

  /** A trailing comment after the `;` makes the line not match. */
  lemma TrailingCommentExample(line: string)
    requires line == "  id: number; // key"
    ensures PropertyMatch(line).None?
  {
    assert NoLineTerminator(line, 0, |line|);
    NoMatchWithoutFinalSemicolon(line);
  }
}
