/**
  The per-file line scan of composeInterfaceData (index.js:179-217) and the
  module-level `interfaces` list it appends to (index.js:46). A file is its
  sequence of lines. The line readers of different files run concurrently, but
  each file keeps its own two variables and pushes its record when its own
  'end' event fires, so a run is a sequence of files in the order those events
  fire, each contributing what its scan alone yields.
 */
module InterfaceScan {
  import opened Wrappers
  import opened CharClasses
  import opened PropertyLine
  import opened HeaderLine

  /** One element of `interfaces`: a name and the fields in source order. */
  datatype InterfaceRecord = InterfaceRecord(name: string, properties: seq<Property>)

  /** The two per-file variables `interfaceName` and `interfaceProperties` (index.js:182-183). */
  datatype ScanState = ScanState(interfaceName: string, properties: seq<Property>)

  /** The 'line' handler: a property match appends a field, otherwise a header match overwrites the name. */
  function ScanLine(st: ScanState, line: string): ScanState
  {
    match PropertyMatch(line)
    case Some(p) => st.(properties := st.properties + [p])
    case None =>
      match HeaderMatch(line)
      case Some(n) => st.(interfaceName := n)
      case None => st
  }

  /** The state after the handler has seen every line, from `''` and `[]`. */
  function Scan(lines: seq<string>): ScanState
    decreases |lines|
  {
    if lines == [] then ScanState("", [])
    else ScanLine(Scan(lines[..|lines| - 1]), lines[|lines| - 1])
  }

  /** The 'end' handler: the record a file adds, present iff the final name is non-empty. */
  function FileRecord(lines: seq<string>): Option<InterfaceRecord>
  {
    var st := Scan(lines);
    if st.interfaceName != "" then Some(InterfaceRecord(st.interfaceName, st.properties)) else None
  }

  /** What one file appends to `interfaces`. */
  function Appended(lines: seq<string>): (a: seq<InterfaceRecord>)
    ensures |a| <= 1
  {
    match FileRecord(lines)
    case Some(r) => [r]
    case None => []
  }

  /** A line that sets the name: it has no property match and a header match. */
  predicate IsHeaderLine(line: string)
  {
    PropertyMatch(line).None? && HeaderMatch(line).Some?
  }

  /** The last index at which f holds, if any. */
  function LastWhere(lines: seq<string>, f: string -> bool): (r: Option<nat>)
    ensures r.Some? ==> r.value < |lines| && f(lines[r.value])
    ensures r.Some? ==> forall j | r.value < j < |lines| :: !f(lines[j])
    ensures r.None? ==> forall j | 0 <= j < |lines| :: !f(lines[j])
    decreases |lines|
  {
    if lines == [] then None
    else if f(lines[|lines| - 1]) then Some(|lines| - 1)
    else
      var init := lines[..|lines| - 1];
      assert forall j | 0 <= j < |init| :: init[j] == lines[j];
      LastWhere(init, f)
  }

  /** All indices at which f holds, in increasing order. */
  function IndicesWhere(lines: seq<string>, f: string -> bool): (ix: seq<nat>)
    ensures forall k | 0 <= k < |ix| :: ix[k] < |lines| && f(lines[ix[k]])
    ensures forall k, l | 0 <= k < l < |ix| :: ix[k] < ix[l]
    ensures forall i | 0 <= i < |lines| && f(lines[i]) :: i in ix
    decreases |lines|
  {
    if lines == [] then []
    else
      var init := lines[..|lines| - 1];
      assert forall j | 0 <= j < |init| :: init[j] == lines[j];
      var rest := IndicesWhere(init, f);
      if f(lines[|lines| - 1]) then rest + [|lines| - 1] else rest
  }

  /** A line whose property pattern matches. */
  predicate IsPropertyLine(line: string)
  {
    PropertyMatch(line).Some?
  }

  /** The index of the last header line, if any. */
  function LastHeader(lines: seq<string>): Option<nat>
  {
    LastWhere(lines, IsHeaderLine)
  }

  /** The indices of all property lines, in increasing order. */
  function PropertyLines(lines: seq<string>): seq<nat>
  {
    IndicesWhere(lines, IsPropertyLine)
  }

  /** What one line does to the state: a property line appends its field, a header line sets the name. */
  lemma ScanLineEffect(st: ScanState, line: string)
    ensures ScanLine(st, line).properties ==
      st.properties + (if IsPropertyLine(line) then [PropertyMatch(line).value] else [])
    ensures ScanLine(st, line).interfaceName ==
      if IsHeaderLine(line) then HeaderMatch(line).value else st.interfaceName
  {
  }

  /**
    The fields of a file are the matches of all its property lines, in source
    order, wherever they stand relative to the header.
   */
  lemma {:induction false} ScanCollectsPropertyLines(lines: seq<string>)
    ensures var ix := PropertyLines(lines); var props := Scan(lines).properties;
      && |props| == |ix|
      && forall k | 0 <= k < |ix| :: props[k] == PropertyMatch(lines[ix[k]]).value
    decreases |lines|
  {
    if lines != [] {
      var init := lines[..|lines| - 1];
      ScanCollectsPropertyLines(init);
      var ix := PropertyLines(init);
      ScanLineEffect(Scan(init), lines[|lines| - 1]);
      forall k | 0 <= k < |ix|
        ensures lines[ix[k]] == init[ix[k]]
      {
      }
    }
  }

  /** The name at the end of a file is the capture of its last header line, or empty without one. */
  lemma {:induction false} ScanNameIsLastHeader(lines: seq<string>)
    ensures Scan(lines).interfaceName ==
      match LastHeader(lines)
      case Some(i) => HeaderMatch(lines[i]).value
      case None => ""
    decreases |lines|
  {
    if lines != [] {
      var init := lines[..|lines| - 1];
      ScanNameIsLastHeader(init);
      match LastHeader(init)
      case Some(i) => assert lines[i] == init[i];
      case None =>
    }
  }

  /**
    A file adds a record iff its last header line captures a non-empty name;
    the record carries that name, which is a run of word characters, and all
    the file's property-line matches.
   */
  lemma FileRecordSpec(lines: seq<string>)
    ensures FileRecord(lines).Some? <==>
      LastHeader(lines).Some? && HeaderMatch(lines[LastHeader(lines).value]).value != ""
    ensures FileRecord(lines).Some? ==>
      var r := FileRecord(lines).value;
      && r.name == HeaderMatch(lines[LastHeader(lines).value]).value
      && |r.name| > 0 && (forall k | 0 <= k < |r.name| :: IsWord(r.name[k]))
      && r.properties == Scan(lines).properties
  {
    ScanNameIsLastHeader(lines);
    if FileRecord(lines).Some? {
      var line := lines[LastHeader(lines).value];
      HeaderMatchCharacterised(line);
      var a: nat, b: nat, e: nat :| IsHeader(line, a, b, e) && HeaderMatch(line).value == line[b..e];
      assert forall k | 0 <= k < e - b :: line[b..e][k] == line[b + k];
    }
  }

  /** The concatenation of f over xs, in order. */
  function FlatMap<T, U>(xs: seq<T>, f: T -> seq<U>): seq<U>
    decreases |xs|
  {
    if xs == [] then [] else FlatMap(xs[..|xs| - 1], f) + f(xs[|xs| - 1])
  }

  lemma {:induction false} FlatMapAppend<T, U>(xs: seq<T>, ys: seq<T>, f: T -> seq<U>)
    ensures FlatMap(xs + ys, f) == FlatMap(xs, f) + FlatMap(ys, f)
    decreases |ys|
  {
    if ys == [] {
      assert xs + ys == xs;
    } else {
      var init := ys[..|ys| - 1];
      FlatMapAppend(xs, init, f);
      assert (xs + ys)[..|xs + ys| - 1] == xs + init;
      assert (xs + ys)[|xs + ys| - 1] == ys[|ys| - 1];
    }
  }

  /** All records `interfaces` receives from a sequence of files, in file order, with no deduplication. */
  function Records(files: seq<seq<string>>): seq<InterfaceRecord>
  {
    FlatMap(files, Appended)
  }

  /** At most one record per file, and every record has a non-empty name. */
  lemma {:induction false} RecordsNamed(files: seq<seq<string>>)
    ensures |Records(files)| <= |files|
    ensures forall k | 0 <= k < |Records(files)| :: Records(files)[k].name != ""
    decreases |files|
  {
    if files != [] {
      RecordsNamed(files[..|files| - 1]);
    }
  }

  /** One more file adds what that file appends. */
  lemma RecordsStep(files: seq<seq<string>>, k: nat)
    requires k < |files|
    ensures Records(files[..k + 1]) == Records(files[..k]) + Appended(files[k])
  {
    assert files[..k + 1][..k] == files[..k];
  }

  /** A run over one file gets what that file appends. */
  lemma RecordsOfOneFile(lines: seq<string>)
    ensures Records([lines]) == Appended(lines)
  {
    var none: seq<seq<string>> := [];
    assert [lines][..0] == none;
    assert FlatMap([lines], Appended) == FlatMap(none, Appended) + Appended(lines);
  }

  /** Later files only append: the records of a prefix of the files are a prefix of the records. */
  lemma RecordsOnlyAppend(files: seq<seq<string>>, more: seq<seq<string>>)
    ensures Records(files + more) == Records(files) + Records(more)
  {
    FlatMapAppend(files, more, Appended);
  }

  /** Two files with the same name both contribute: nothing is merged or replaced. */
  lemma SameNameTwice(f1: seq<string>, f2: seq<string>)
    requires FileRecord(f1).Some? && FileRecord(f2).Some?
    ensures Records([f1, f2]) == [FileRecord(f1).value, FileRecord(f2).value]
  {
    var none: seq<seq<string>> := [];
    assert [f1][..0] == none;
    assert FlatMap([f1], Appended) == Appended(f1);
    assert [f1, f2][..1] == [f1];
    assert FlatMap([f1, f2], Appended) == Appended(f1) + Appended(f2);
  }
}
