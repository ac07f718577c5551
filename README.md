# angular-mock-models, modelled in Dafny

`index.js` of angular-mock-models reads TypeScript `*.interface.ts` files line
by line and writes a `<Name>.stubs.ts` file for every interface it finds. Each
stub file declares two mock objects filled with fake values. This project
models the deterministic core of that script and proves what it does:

- `chars.dfy` (`CharClasses`): the character classes the two regular
  expressions use. These are JavaScript `\s`, ASCII `\w`, the separator class
  `[\s?:]`, the bracket class `[\[\]]` and the line terminators. The module
  also defines greedy runs over a class and the ASCII-only case folding of
  the `i` flag.
- `property_line.dfy` (`PropertyLine`): the property pattern
  `propertyLineRe`, written out by hand. It honours the `m` flag, greedy
  backtracking of the name and the priority rules of the regular expression.
- `header_line.dfy` (`HeaderLine`): the interface-header pattern
  `classLineRe`.
- `scan.dfy` (`InterfaceScan`): the per-file scan inside
  `composeInterfaceData`, as a function over a file's lines, and the records
  a sequence of files adds to `interfaces`.
- `numerals.dfy` (`Numerals`): how a template literal writes an integer.
- `values.dfy` (`ValueSynthesis`): `generateValue`. This covers the
  name-based type override, the value for each type and the diagnostic for
  an unknown type. The faker/moment calls are an abstract `Provider`.
- `emit.dfy` (`MockEmit`): `parseProperties`, the stub path and the stub
  file template of `createMockData`.
- `pipeline.dfy` (`MockScript`): the module-level `interfaces` list as the
  class `MockRun`. Its methods scan files line by line in a loop, as the
  event handlers do. The module also holds the whole run and worked examples.

The per-file scan is imperative in the source, so `MockRun.ScanFile` is a
method with a loop. Its invariant ties the two local variables to the
function `Scan`, and the lemmas in `InterfaceScan` state what `Scan`
computes. Everything else in the core is pure and is modelled as functions
with lemmas.

## Model

| member | source | states |
|---|---|---|
| CharClasses.RunEnd | index.js:48-49 | A greedy `*` over a class consumes a run of that class which the next character cannot extend |
| PropertyLine.PropertyMatch | index.js:187-195 | `line.match(propertyLineRe)` turned into the field record: None without a match, else the two word captures and whether the bracket group is non-empty; characterised by MatchSpanIsPreferredMatch and MatchedPropertyShape |
| PropertyLine.MatchAt | index.js:48 | The attempt at one line start yields only genuine matches of the pattern that begin there |
| PropertyLine.MatchAtComplete | index.js:48 | Any match beginning at a line start is found there, with a name at least as long (greedy `(\w+)`) |
| PropertyLine.MatchDeterminedByName | index.js:48 | At a given start, the end of the name fixes every other group of the match |
| PropertyLine.MatchFrom | index.js:48 | Searching from a position yields only genuine matches at or after it |
| PropertyLine.MatchFromComplete | index.js:48 | Any match at or after the position is found, and the found one is leftmost, then longest-named |
| PropertyLine.MatchSpanIsPreferredMatch | index.js:48 | A line has a match iff the matcher finds one; the found match is preferred to every other and is the only such match |
| PropertyLine.MatchedPropertyShape | index.js:190-195 | The name and type are non-empty word runs; isArray holds iff a bracket stands before the `;`; a line without terminators ends at that `;` |
| PropertyLine.NoMatchWithoutFinalSemicolon | index.js:48 | On a line without line terminators (U+2028, U+2029 included), a line that does not end in `;` has no match |
| PropertyLine.MaximalNameIsTheMatch | index.js:48 | A match at the line's start whose name cannot be extended is the match |
| PropertyLine.NoMatchWithoutTypeBeforeSemicolon | index.js:48 | On a line without line terminators (U+2028, U+2029 included), a line whose character before the final `;` is neither a word character nor a bracket has no match |
| PropertyLine.FieldLineRoundTrip | index.js:190-195 | Indentation, a name, a non-empty run of separators, a type, brackets and `;` parse back to that name and type, with isArray iff there are brackets |
| PropertyLine.GreedyNameExample | index.js:48 | `abc;` matches with name `ab` and type `c` |
| PropertyLine.OptionalFieldExample | index.js:48 | `  name?: string;` gives the field `name` of type `string`, not an array |
| PropertyLine.ArrayFieldExample | index.js:48 | `\ttags: string[];` gives the field `tags` of type `string` with isArray true |
| PropertyLine.GenericTypeExample | index.js:48 | `  tags: Array<string>;` does not match |
| PropertyLine.TrailingCommentExample | index.js:48 | A comment after the `;` makes the line not match |
| HeaderLine.HeaderMatch | index.js:188 | `line.match(classLineRe)[1]`, or None without a match; characterised by HeaderMatchCharacterised and HeaderCapturesName |
| HeaderLine.HeaderMatchCharacterised | index.js:49 | The header matcher succeeds iff some way of matching the pattern exists; its capture is a word run the next character cannot extend |
| HeaderLine.HeaderPositionsForced | index.js:49 | Any way of matching passes the same `interface` and ends its name no later than the greedy capture |
| HeaderLine.HeaderCapturesName | index.js:49 | When the name cannot be extended on either side, it is exactly the captured group |
| HeaderLine.HeaderLineRoundTrip | index.js:49 | `export`, whitespace, `interface`, whitespace, a word and a rest with no line terminator that does not continue the word, in any ASCII case, capture exactly that word |
| HeaderLine.ExportInterfaceCaptures | index.js:49 | `export interface ` followed by a word and a rest with no line terminator that does not continue the word captures that word |
| HeaderLine.HeaderExample | index.js:49 | `Export Interface User {` captures `User` (the `i` flag) |
| HeaderLine.LowerCaseHeaderExample | index.js:49 | `export interface User {` captures `User` |
| HeaderLine.EmptyNameExample | index.js:49 | `export interface {` matches with an empty capture |
| HeaderLine.IndentedHeaderExample | index.js:49 | An indented header does not match |
| InterfaceScan.ScanLine | index.js:186-201 | The 'line' handler on the two per-file variables; characterised by ScanLineEffect |
| InterfaceScan.Scan | index.js:182-201 | The two variables after every line of a file, from `''` and `[]`; characterised by ScanCollectsPropertyLines and ScanNameIsLastHeader |
| InterfaceScan.FileRecord | index.js:203-211 | What the 'end' handler pushes for a file, if anything; characterised by FileRecordSpec |
| InterfaceScan.Records | index.js:181-211 | The records `interfaces` receives from a sequence of files; characterised by RecordsNamed, RecordsStep and RecordsOnlyAppend |
| InterfaceScan.ScanLineEffect | index.js:187-200 | A property line appends its field and leaves the name; a header line that is no property line sets the name; any other line changes nothing |
| InterfaceScan.ScanCollectsPropertyLines | index.js:188-200 | The fields are the matches of all property lines of the file, in source order, including those before the header |
| InterfaceScan.ScanNameIsLastHeader | index.js:198-199 | The final name is the capture of the last line that matches the header pattern and not the property pattern, or empty without one |
| InterfaceScan.FileRecordSpec | index.js:203-211 | A file adds a record iff its last header captures a non-empty name; the record carries that name and all the file's fields |
| InterfaceScan.RecordsNamed | index.js:203-211 | Every appended record has a non-empty name, at most one per file |
| InterfaceScan.RecordsStep | index.js:181-211 | Each further file adds exactly what that file appends |
| InterfaceScan.RecordsOnlyAppend | index.js:205 | Later files only append to `interfaces` |
| InterfaceScan.SameNameTwice | index.js:205 | Two files declaring the same name give two records; nothing is merged |
| MockScript.MockRun.ScanFile | index.js:181-211 | The line loop followed by the end handler appends exactly the file's record; the result says whether one was appended |
| MockScript.MockRun.ComposeInterfaceData | index.js:179-217 | Scanning all files appends all their records in the order of `files`; the count is the number of records added |
| MockScript.RunScript | index.js:179-217 | A whole run writes one stub file per record, in the order of the records, under the destination; the logged count equals the number of stub files |
| MockScript.SameNameSamePath | index.js:145 | Two files with the same interface name give two stub files with the same path |
| MockScript.ThreeLineFile | index.js:188-211 | A header line whose header captures a non-empty name, a field line and a line matching nothing give one record with one field |
| MockScript.UserFileExample | index.js:188-211 | The file `export interface User {`, `  name?: string;`, `}` gives the record `User` with the field `name: string` |
| MockScript.UserStubExample | index.js:138-154 | That record's stub file is `<dst>/User.stubs.ts`, and both bodies hold `name: '<first name>'` |
| Numerals.Decimal | index.js:108 | How `${n}` writes an integer: a `-` for a negative number, then the digits of its magnitude; the digits are characterised by Digits and DigitsRoundTrip |
| Numerals.Digits | index.js:108 | The decimal writing of a natural number is non-empty, all digits, and has no leading zero unless the number is 0 |
| Numerals.DigitsRoundTrip | index.js:108 | Reading the written digits back gives the number |
| Numerals.FiveDigits | index.js:108 | Every number from 10000 to 99999 is written with five digits |
| Numerals.AtMostThreeDigits | index.js:111 | Every number from 1 to 200 is written with one to three digits, the first of them not zero |
| ValueSynthesis.EffectiveType | index.js:60-98 | The type after the first switch; characterised by NameOverridesDeclaredType |
| ValueSynthesis.GenerateValue | index.js:57-136 | generateValue: the value for the effective type and the diagnostic for an unknown one; characterised by OverriddenValues and LiteralForms |
| ValueSynthesis.Interpolate | index.js:139 | How a template literal writes each kind of value: numbers in decimal, strings as they are, `true`/`false`, `null` |
| ValueSynthesis.Literal | index.js:139 | The text `${generateValue(...)}` puts into an entry; characterised by LiteralForms, ZipLiteral and StreetLiteral |
| ValueSynthesis.NameOverridesDeclaredType | index.js:60-98 | A field name in the override table decides the value whatever the declared type; any other name keeps its declared type |
| ValueSynthesis.OverriddenValues | index.js:60-130 | The value for each group of overridden names: date, street, zip, email, country, city and first name |
| ValueSynthesis.LiteralForms | index.js:100-135 | The literal is single-quoted iff the type is textual; `number` and `boolean` are bare; any other type gives `null` and the diagnostic naming the declared type |
| ValueSynthesis.ZipLiteral | index.js:107-109 | A zip is a quoted five-digit number from 10000 to 99999 |
| ValueSynthesis.StreetLiteral | index.js:110-112 | A street is a quoted street name, a space and a house number from 1 to 200 |
| MockEmit.Join | index.js:139 | `join(",\n\t")`; characterised by JoinAppend and JoinAround |
| MockEmit.JoinAppend | index.js:139 | Joining two non-empty lists puts exactly one separator between their joins |
| MockEmit.JoinAround | index.js:139 | Each part stands whole in the join, with the separator toward each neighbour and nothing at either end |
| MockEmit.Entry | index.js:139 | One entry, `<name>: <literal>` |
| MockEmit.Entries | index.js:139 | There is one entry per field |
| MockEmit.ParseProperties | index.js:138-140 | parseProperties: the entries joined; characterised by ParsePropertiesLayout and ParsePropertiesIgnoresIsArray |
| MockEmit.ParsePropertiesLayout | index.js:138-140 | The body holds the k-th field's `name: value` as its k-th entry, separated by `",\n\t"`; no fields give an empty body |
| MockEmit.ParsePropertiesIgnoresIsArray | index.js:139 | The body depends on each field's name and type only, never on isArray |
| MockEmit.FilePath | index.js:145 | `dstPath + '/' + name + '.stubs.ts'`; characterised by FilePathRoundTrip and FilePathsCollideIffSameName |
| MockEmit.FilePathRoundTrip | index.js:145 | The interface name can be read back from a stub path, and only from that path |
| MockEmit.FilePathsCollideIffSameName | index.js:145 | Two stub paths under one destination are equal iff the names are equal |
| MockEmit.Constant | index.js:147-149 | One declaration of the template with its body; characterised by ConstantDeclares |
| MockEmit.FileContent | index.js:146-154 | The whole template; characterised by FileContentDeclares |
| MockEmit.DeclarationReads | index.js:147 | A declaration line is read back as the constant it declares and its type annotation |
| MockEmit.ConstantDeclares | index.js:147-149 | A template declaration declares `mock<Name><k>` typed `<Name>`, whatever follows it |
| MockEmit.FileContentDeclares | index.js:146-154 | A stub file starts with a newline, declares `mock<Name>1` typed `<Name>`, then after a blank line `mock<Name>2` typed `<Name>` |
| MockEmit.Stub | index.js:144-154 | The path and content createMockData builds for one interface, with the two bodies drawn separately; characterised by MockFilesSpec |
| MockEmit.MockFiles | index.js:144-154 | There is one stub file per interface |
| MockEmit.MockFilesSpec | index.js:144-154 | Each interface's file is named after it, declares its first mock, and two files share a path iff their interfaces share a name |

## Left out

- Command-line handling (index.js:1-38) is left out. This covers `minimist`, `process.exit` and creating the destination directory. The destination path is a parameter.
- Clearing the destination directory (`emptyDst`, index.js:169-177) is file-system I/O and is left out.
- File discovery and reading (`find.eachfile`, `LineByLineReader`) are I/O. A file is given as its sequence of lines, as the line reader yields them (split at `\n`, `\r\n` and `\r`), and a run is given as its sequence of files.
- InterfaceScan.Records: the line readers of different files run concurrently (index.js:185), and each file's record is pushed when that file's own 'end' event fires (index.js:203-205). `files` stands for the files in the order their 'end' events fire, which may differ from the order of discovery. Interleaved 'line' events of different files do not interact, because each file's two variables live in its own callback (index.js:182-183).
- MockScript.MockRun.ComposeInterfaceData: scans every file to completion before it returns its count. In index.js the discovery finishes (`.end`, index.js:213) without waiting for the line readers, so `Found N interfaces.` may be logged with a count that misses files still being read.
- MockScript.RunScript: writes the stubs of every file's record. In index.js `createMockData` may run before every line reader has finished, so a stub for a late file may be missing and the logged count may be lower than the number of interfaces.
- Writing the files (`fs.writeFile`, `Promise.all`, index.js:143-164) is I/O. The model stops at each file's path and content. When two interfaces share a name, which write lands last is not modelled.
- The faker and moment calls are not modelled, and neither is `faker.locale`. A `Provider` stands for the values of one call. Only the explicit bounds of `faker.random.number({min, max})` are assumed (`Honest`). `faker.random.number()` without bounds is any integer. A date is any string; the `YYYY-MM-DD` format is not modelled.
- Console logging is left out except for the diagnostic of `generateValue`. That diagnostic is a field of its result.
- Numerals.Decimal: writes every integer in positional notation. JavaScript switches to exponent notation from 10^21. The only numbers written are faker's and lie far below that.
- The line reader splits lines at `\n`, `\r\n` and `\r` only, so a line may still hold U+2028 or U+2029. `PropertyLine` handles such lines as the `m` flag does.
- A character here is a Unicode scalar value, where JavaScript sees UTF-16 code units. Positions inside a line are counted differently for characters outside the Basic Multilingual Plane. Matches and captures are not affected: neither pattern class nor a line terminator contains such a character or a surrogate.
- The model follows index.js where descriptions of this tool differ from it. index.js has no import lines and no references between mocks; a field whose type is another interface gets `null`. It does not wrap array fields in brackets; `isArray` is captured and never used. It does not deduplicate interfaces by name: `interfaces` is append-only. The last header line of a file wins, not the first.
- The template writes `export const mock<Name>1: <Name> {` with no `=` (index.js:147, index.js:151), which is not valid TypeScript. It is modelled as written.
