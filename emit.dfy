/**
  The emitter: `parseProperties` (index.js:138-140) and the path and text of
  each stub file that `createMockData` writes (index.js:143-154). The value
  provider for each generated value is a parameter: `draw(k)` is what the
  library returns while the k-th field's value is generated.
 */
module MockEmit {
  import opened Wrappers
  import opened CharClasses
  import opened PropertyLine
  import opened ValueSynthesis
  import opened InterfaceScan

  /** The separator `parseProperties` joins entries with. */
  const EntrySeparator := ",\n\t"

  /** `Array.prototype.join(EntrySeparator)`. */
  function Join(parts: seq<string>): string
    decreases |parts|
  {
    if parts == [] then ""
    else if |parts| == 1 then parts[0]
    else Join(parts[..|parts| - 1]) + EntrySeparator + parts[|parts| - 1]
  }

  /** Joining two non-empty lists puts one separator between their joins. */
  lemma {:induction false} JoinAppend(a: seq<string>, b: seq<string>)
    requires a != [] && b != []
    ensures Join(a + b) == Join(a) + EntrySeparator + Join(b)
    decreases |b|
  {
    var ab := a + b;
    if |b| == 1 {
      assert ab[..|ab| - 1] == a;
    } else {
      var b' := b[..|b| - 1];
      JoinAppend(a, b');
      assert ab[..|ab| - 1] == a + b';
      assert ab[|ab| - 1] == b[|b| - 1];
      assert Join(ab) == Join(a + b') + EntrySeparator + b[|b| - 1];
      assert Join(b) == Join(b') + EntrySeparator + b[|b| - 1];
    }
  }

  /** A part with neighbours on both sides has a separator on each side. */
  lemma {:induction false} JoinMiddle(head: seq<string>, x: string, tail: seq<string>)
    requires head != [] && tail != []
    ensures Join(head + [x] + tail) == Join(head) + EntrySeparator + x + EntrySeparator + Join(tail)
  {
    JoinAppend(head + [x], tail);
    JoinAppend(head, [x]);
  }

  /**
    Every part stands in the join whole, with a separator on each side that
    has a neighbour and nothing on a side that has none.
   */
  lemma {:induction false} JoinAround(parts: seq<string>, k: nat)
    requires k < |parts|
    ensures Join(parts) ==
      (if k == 0 then "" else Join(parts[..k]) + EntrySeparator)
      + parts[k]
      + (if k == |parts| - 1 then "" else EntrySeparator + Join(parts[k + 1..]))
  {
    var head, mid, tail := parts[..k], [parts[k]], parts[k + 1..];
    assert parts == head + mid + tail;
    if head == [] && tail == [] {
    } else if head == [] {
      assert parts == mid + tail;
      JoinAppend(mid, tail);
    } else if tail == [] {
      JoinAppend(head, mid);
    } else {
      JoinMiddle(head, parts[k], tail);
    }
  }

  /** One entry, `${x.name}: ${generateValue(x.type, x.name)}`. */
  function Entry(p: Property, f: Provider): string
  {
    p.name + ": " + Literal(p.typeName, p.name, f)
  }

  /** The mapped entries, the k-th drawn with draw(k). */
  function Entries(props: seq<Property>, draw: nat -> Provider): (es: seq<string>)
    ensures |es| == |props|
  {
    seq(|props|, k requires 0 <= k < |props| => Entry(props[k], draw(k)))
  }

  /** `parseProperties(properties)` */
  function ParseProperties(props: seq<Property>, draw: nat -> Provider): string
  {
    Join(Entries(props, draw))
  }

  /**
    The body holds one `name: value` entry per field, in field order: the k-th
    entry is the k-th field's name and generated literal, preceded by the
    entries before it and followed by those after it, each pair apart by
    EntrySeparator. No fields give an empty body.
   */
  lemma ParsePropertiesLayout(props: seq<Property>, draw: nat -> Provider, k: nat)
    requires k < |props|
    ensures var es := Entries(props, draw);
      && es[k] == props[k].name + ": " + Literal(props[k].typeName, props[k].name, draw(k))
      && ParseProperties(props, draw) ==
        (if k == 0 then "" else Join(es[..k]) + EntrySeparator)
        + es[k]
        + (if k == |props| - 1 then "" else EntrySeparator + Join(es[k + 1..]))
    ensures ParseProperties([], draw) == ""
  {
    JoinAround(Entries(props, draw), k);
  }

  /** The generated text reads only the name and type of each field, never isArray. */
  lemma ParsePropertiesIgnoresIsArray(p1: seq<Property>, p2: seq<Property>, draw: nat -> Provider)
    requires |p1| == |p2|
    requires forall k | 0 <= k < |p1| :: p1[k].name == p2[k].name && p1[k].typeName == p2[k].typeName
    ensures ParseProperties(p1, draw) == ParseProperties(p2, draw)
  {
    forall k | 0 <= k < |p1|
      ensures Entry(p1[k], draw(k)) == Entry(p2[k], draw(k))
    {
    }
    assert Entries(p1, draw) == Entries(p2, draw);
  }

  const StubSuffix := ".stubs.ts"

  /** `dstPath + '/' + i.name + '.stubs.ts'` */
  function FilePath(dst: string, name: string): string
  {
    dst + "/" + name + StubSuffix
  }

  /** The interface name a stub path under dst was made from, if it is one. */
  function StubName(dst: string, path: string): Option<string>
  {
    var lo := |dst| + 1;
    if |path| >= lo + |StubSuffix| && path[..lo] == dst + "/" && path[|path| - |StubSuffix|..] == StubSuffix
    then Some(path[lo..|path| - |StubSuffix|])
    else None
  }

  /** Reading the name back from a stub path gives the name, and only stub paths give one. */
  lemma FilePathRoundTrip(dst: string, name: string, path: string)
    ensures StubName(dst, FilePath(dst, name)) == Some(name)
    ensures StubName(dst, path) == Some(name) ==> FilePath(dst, name) == path
  {
    var p := FilePath(dst, name);
    var lo := |dst| + 1;
    assert p[..lo] == dst + "/";
    assert p[|p| - |StubSuffix|..] == StubSuffix;
    assert p[lo..|p| - |StubSuffix|] == name;
    if StubName(dst, path) == Some(name) {
      assert path == path[..lo] + path[lo..|path| - |StubSuffix|] + path[|path| - |StubSuffix|..];
    }
  }

  /** Under one destination, two stub files share a path exactly when their interfaces share a name. */
  lemma FilePathsCollideIffSameName(dst: string, n1: string, n2: string)
    ensures FilePath(dst, n1) == FilePath(dst, n2) <==> n1 == n2
  {
    FilePathRoundTrip(dst, n1, FilePath(dst, n2));
    FilePathRoundTrip(dst, n2, FilePath(dst, n2));
  }

  const MockPrefix := "export const mock"

  /** One of the two declarations of the template, `export const mock<Name><k>: <Name> {` and the body. */
  function Constant(name: string, suffix: string, body: string): string
  {
    MockPrefix + name + suffix + ": " + name + " {\n    " + body + "\n};\n"
  }

  /** The whole template: a blank first line, then the two declarations apart by a blank line. */
  function FileContent(name: string, body1: string, body2: string): string
  {
    "\n" + Constant(name, "1", body1) + "\n" + Constant(name, "2", body2)
  }

  /**
    The constant a declaration line declares and the type it annotates it
    with: the word run after `export const mock` and the word run after the
    `: ` that follows it.
   */
  function Declaration(text: string): Option<(string, string)>
  {
    var p := |MockPrefix|;
    if |text| < p || text[..p] != MockPrefix then None
    else
      var id := RunEnd(text, p, Word);
      if id + 2 <= |text| && text[id..id + 2] == ": " then
        var t := RunEnd(text, id + 2, Word);
        Some(("mock" + text[p..id], text[id + 2..t]))
      else None
  }

  /** Declaration reads back the identifier and type it is given. */
  lemma DeclarationReads(id: string, ty: string, tail: string)
    requires AllIn(id, Word) && AllIn(ty, Word)
    requires tail != [] && !IsWord(tail[0])
    ensures Declaration(MockPrefix + id + ": " + ty + tail) == Some(("mock" + id, ty))
  {
    var c := MockPrefix + id + ": " + ty + tail;
    var p := |MockPrefix|;
    var e := p + |id|;
    var t := e + 2 + |ty|;
    assert c[..p] == MockPrefix;
    assert c[p..e] == id;
    assert All(c, p, e, Word) by {
      forall k | p <= k < e
        ensures In(c[k], Word)
      {
        assert c[k] == id[k - p];
      }
    }
    assert c[e] == ':';
    RunEndUnique(c, p, e, Word);
    assert c[e..e + 2] == ": ";
    assert c[e + 2..t] == ty;
    assert All(c, e + 2, t, Word) by {
      forall k | e + 2 <= k < t
        ensures In(c[k], Word)
      {
        assert c[k] == ty[k - e - 2];
      }
    }
    assert c[t] == tail[0];
    RunEndUnique(c, e + 2, t, Word);
  }

  /**
    A declaration of an interface named by word characters declares
    `mock<Name><k>` of type `<Name>`, whatever text follows it.
   */
  lemma ConstantDeclares(name: string, suffix: char, body: string, rest: string)
    requires AllIn(name, Word) && IsWord(suffix)
    ensures Declaration(Constant(name, [suffix], body) + rest) == Some(("mock" + name + [suffix], name))
  {
    var id := name + [suffix];
    var tail := " {\n    " + body + "\n};\n" + rest;
    assert AllIn(id, Word) by {
      forall k | 0 <= k < |id|
        ensures IsWord(id[k])
      {
        if k < |name| {
          assert id[k] == name[k];
        }
      }
    }
    assert Constant(name, [suffix], body) + rest == MockPrefix + id + ": " + name + tail;
    DeclarationReads(id, name, tail);
    assert "mock" + name + [suffix] == "mock" + id;
  }

  /** The first declaration follows the leading newline. */
  lemma FirstDeclaration(name: string, body1: string, body2: string)
    requires AllIn(name, Word)
    ensures var text := FileContent(name, body1, body2);
      text[0] == '\n' && Declaration(text[1..]) == Some(("mock" + name + "1", name))
  {
    var text := FileContent(name, body1, body2);
    var c1 := Constant(name, "1", body1);
    var c2 := Constant(name, "2", body2);
    assert "1" == ['1'];
    var rest := c1 + ("\n" + c2);
    assert text == "\n" + rest;
    assert text[1..] == rest;
    ConstantDeclares(name, '1', body1, "\n" + c2);
  }

  /** The second declaration follows the first and one more newline. */
  lemma SecondDeclaration(name: string, body1: string, body2: string)
    requires AllIn(name, Word)
    ensures var text := FileContent(name, body1, body2); var c1 := Constant(name, "1", body1);
      text[1 + |c1|] == '\n' && Declaration(text[2 + |c1|..]) == Some(("mock" + name + "2", name))
  {
    var text := FileContent(name, body1, body2);
    var c1 := Constant(name, "1", body1);
    var c2 := Constant(name, "2", body2);
    assert "2" == ['2'];
    assert text[2 + |c1|..] == c2 + "";
    ConstantDeclares(name, '2', body2, "");
  }

  /**
    A stub file declares `mock<Name>1` and then `mock<Name>2`, both of type
    `<Name>`: the first right after the leading newline, the second after the
    first declaration and one blank line.
   */
  lemma FileContentDeclares(name: string, body1: string, body2: string)
    requires AllIn(name, Word)
    ensures var text := FileContent(name, body1, body2); var c1 := Constant(name, "1", body1);
      && text[0] == '\n'
      && Declaration(text[1..]) == Some(("mock" + name + "1", name))
      && text[1 + |c1|] == '\n'
      && Declaration(text[2 + |c1|..]) == Some(("mock" + name + "2", name))
  {
    FirstDeclaration(name, body1, body2);
    SecondDeclaration(name, body1, body2);
  }

  /** One file createMockData writes. */
  datatype StubFile = StubFile(path: string, content: string)

  /** The file for one interface, its two bodies drawn with draw1 and draw2. */
  function Stub(r: InterfaceRecord, dst: string, draw1: nat -> Provider, draw2: nat -> Provider): StubFile
  {
    StubFile(FilePath(dst, r.name),
      FileContent(r.name, ParseProperties(r.properties, draw1), ParseProperties(r.properties, draw2)))
  }

  /** The providers of one constant's body: those of interface i and constant c. */
  function Draws(draw: (nat, nat, nat) -> Provider, i: nat, c: nat): nat -> Provider
  {
    (k: nat) => draw(i, c, k)
  }

  /**
    createMockData: one file per element of `interfaces`, in order;
    draw(i, c, k) is the provider for field k of constant c of interface i.
   */
  function MockFiles(interfaces: seq<InterfaceRecord>, dst: string, draw: (nat, nat, nat) -> Provider): (ws: seq<StubFile>)
    ensures |ws| == |interfaces|
  {
    seq(|interfaces|, i requires 0 <= i < |interfaces| =>
      Stub(interfaces[i], dst, Draws(draw, i, 1), Draws(draw, i, 2)))
  }

  /**
    Every interface gets its own file named after it, declaring its two
    mocks; two files land on the same path exactly when their interfaces
    share a name, so nothing is merged.
   */
  lemma MockFilesSpec(interfaces: seq<InterfaceRecord>, dst: string, draw: (nat, nat, nat) -> Provider, i: nat, j: nat)
    requires i < |interfaces| && j < |interfaces|
    ensures var ws := MockFiles(interfaces, dst, draw);
      && StubName(dst, ws[i].path) == Some(interfaces[i].name)
      && (ws[i].path == ws[j].path <==> interfaces[i].name == interfaces[j].name)
    ensures AllIn(interfaces[i].name, Word) ==>
      var text := MockFiles(interfaces, dst, draw)[i].content;
      Declaration(text[1..]) == Some(("mock" + interfaces[i].name + "1", interfaces[i].name))
  {
    var ws := MockFiles(interfaces, dst, draw);
    FilePathRoundTrip(dst, interfaces[i].name, ws[i].path);
    FilePathsCollideIffSameName(dst, interfaces[i].name, interfaces[j].name);
    if AllIn(interfaces[i].name, Word) {
      var r := interfaces[i];
      FileContentDeclares(r.name, ParseProperties(r.properties, Draws(draw, i, 1)),
        ParseProperties(r.properties, Draws(draw, i, 2)));
    }
  }
}
