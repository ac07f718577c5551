/**
  The script as a whole: the module-level `interfaces` list (index.js:46), the
  scan that fills it (index.js:179-217) and the stub files that are then
  written from it (index.js:143-164). The order of the promise chain
  (index.js:224-228) is kept: every file is scanned before anything is emitted.
 */
module MockScript {
  import opened Wrappers
  import opened CharClasses
  import opened PropertyLine
  import opened HeaderLine
  import opened InterfaceScan
  import opened ValueSynthesis
  import opened MockEmit

  /**
    The script's module-level state: the `interfaces` list that every scanned
    file appends to and that the emitter later reads.
   */
  class MockRun {
    var interfaces: seq<InterfaceRecord>

    constructor ()
      ensures interfaces == []
    {
      interfaces := [];
    }

    /** One file's 'line' handlers followed by its 'end' handler; found says whether a record was appended. */
    method ScanFile(lines: seq<string>) returns (found: bool)
      modifies this
      ensures interfaces == old(interfaces) + Appended(lines)
      ensures |interfaces| == |old(interfaces)| + (if found then 1 else 0)
    {
      var interfaceName := "";
      var interfaceProperties: seq<Property> := [];
      var i := 0;
      while i < |lines|
        invariant 0 <= i <= |lines|
        invariant ScanState(interfaceName, interfaceProperties) == Scan(lines[..i])
      {
        var propertyMatch := PropertyMatch(lines[i]);
        var classMatch := HeaderMatch(lines[i]);
        if propertyMatch.Some? {
          interfaceProperties := interfaceProperties + [propertyMatch.value];
        } else if classMatch.Some? {
          interfaceName := classMatch.value;
        }
        assert lines[..i + 1][..i] == lines[..i];
        i := i + 1;
      }
      assert lines[..|lines|] == lines;
      if interfaceName != "" {
        interfaces := interfaces + [InterfaceRecord(interfaceName, interfaceProperties)];
        found := true;
      } else {
        found := false;
      }
    }

    /** Scans every file in turn; the result is the `fileCount` that the final log line reports. */
    method ComposeInterfaceData(files: seq<seq<string>>) returns (fileCount: nat)
      modifies this
      ensures interfaces == old(interfaces) + Records(files)
      ensures fileCount == |Records(files)|
    {
      fileCount := 0;
      for k := 0 to |files|
        invariant interfaces == old(interfaces) + Records(files[..k])
        invariant fileCount == |interfaces| - |old(interfaces)|
      {
        var found := ScanFile(files[k]);
        if found {
          fileCount := fileCount + 1;
        }
        RecordsStep(files, k);
      }
      assert files[..|files|] == files;
    }
  }

  /**
    composeInterfaceData followed by createMockData on a fresh run: the stub
    files are one per record, in the order the files were scanned, and the
    count logged as found is the number of files written.
   */
  method RunScript(files: seq<seq<string>>, dst: string, draw: (nat, nat, nat) -> Provider)
    returns (fileCount: nat, written: seq<StubFile>)
    ensures written == MockFiles(Records(files), dst, draw)
    ensures fileCount == |written|
    ensures forall i | 0 <= i < |written| :: StubName(dst, written[i].path).Some?
  {
    var run := new MockRun();
    fileCount := run.ComposeInterfaceData(files);
    written := MockFiles(run.interfaces, dst, draw);
    forall i | 0 <= i < |written|
      ensures StubName(dst, written[i].path).Some?
    {
      MockFilesSpec(run.interfaces, dst, draw, i, i);
    }
  }

  /** Two files declaring the same interface give two stub files on the same path. */
  lemma SameNameSamePath(f1: seq<string>, f2: seq<string>, dst: string, draw: (nat, nat, nat) -> Provider)
    requires FileRecord(f1).Some? && FileRecord(f2).Some?
    requires FileRecord(f1).value.name == FileRecord(f2).value.name
    ensures var ws := MockFiles(Records([f1, f2]), dst, draw);
      |ws| == 2 && ws[0].path == ws[1].path
  {
    SameNameTwice(f1, f2);
    MockFilesSpec(Records([f1, f2]), dst, draw, 0, 1);
  }

  /** The header of the example file is no property line: it does not end in `;`. */
  lemma UserHeaderNoProperty(l0: string)
    requires l0 == "export interface User {"
    ensures PropertyMatch(l0).None?
  {
    assert NoLineTerminator(l0, 0, |l0|);
    NoMatchWithoutFinalSemicolon(l0);
  }

  /** The closing brace matches neither pattern. */
  lemma ClosingBraceLine(l2: string)
    requires l2 == "}"
    ensures PropertyMatch(l2).None? && HeaderMatch(l2).None?
  {
    assert NoLineTerminator(l2, 0, |l2|);
    NoMatchWithoutFinalSemicolon(l2);
    assert LowerAscii(l2[0]) != 'e';
  }

  /** A file of a header, a field line and a line matching neither yields one record. */
  lemma ThreeLineFile(l0: string, l1: string, l2: string, name: string, p: Property)
    requires PropertyMatch(l0).None? && HeaderMatch(l0) == Some(name) && name != ""
    requires PropertyMatch(l1) == Some(p)
    requires PropertyMatch(l2).None? && HeaderMatch(l2).None?
    ensures FileRecord([l0, l1, l2]) == Some(InterfaceRecord(name, [p]))
  {
    var lines := [l0, l1, l2];
    assert lines[..2][..1] == [l0] && lines[..2] == [l0, l1];
    assert Scan(lines[..1]) == ScanState(name, []);
    assert Scan(lines[..2]) == ScanState(name, [p]);
    assert Scan(lines) == ScanState(name, [p]);
  }

  /** A one-file run: the header names the interface and the field line gives its only field. */
  lemma UserFileExample(l0: string, l1: string, l2: string)
    requires l0 == "export interface User {" && l1 == "  name?: string;" && l2 == "}"
    ensures Records([[l0, l1, l2]]) == [InterfaceRecord("User", [Property("name", "string", false)])]
  {
    UserHeaderNoProperty(l0);
    LowerCaseHeaderExample(l0);
    OptionalFieldExample(l1);
    ClosingBraceLine(l2);
    ThreeLineFile(l0, l1, l2, "User", Property("name", "string", false));
    RecordsOfOneFile([l0, l1, l2]);
  }

  /** The body for the example's one field, `name`, generated as a first name because of its name. */
  lemma UserBody(d: nat -> Provider)
    ensures ParseProperties([Property("name", "string", false)], d) == "name: '" + d(0).firstName + "'"
  {
    var p := Property("name", "string", false);
    OverriddenValues("string", "name", d(0));
    assert Entries([p], d) == [Entry(p, d(0))];
  }

  /**
    The stub file of that interface: `name` is generated as a first name
    because of its field name, once for each of the two mocks.
   */
  lemma UserStubExample(dst: string, draw: (nat, nat, nat) -> Provider)
    ensures var r := InterfaceRecord("User", [Property("name", "string", false)]);
      MockFiles([r], dst, draw) == [StubFile(dst + "/User.stubs.ts",
        FileContent("User", "name: '" + draw(0, 1, 0).firstName + "'", "name: '" + draw(0, 2, 0).firstName + "'"))]
  {
    var p := Property("name", "string", false);
    var r := InterfaceRecord("User", [p]);
    UserBody(Draws(draw, 0, 1));
    UserBody(Draws(draw, 0, 2));
    assert MockFiles([r], dst, draw) == [Stub(r, dst, Draws(draw, 0, 1), Draws(draw, 0, 2))];
    assert FilePath(dst, "User") == dst + "/User.stubs.ts";
  }
}
