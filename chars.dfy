/**
  The character classes the two line patterns of index.js use, as JavaScript
  regular expressions define them without the `u` flag, and the greedy
  scanning of a run of one class.
 */
module CharClasses {

  /** JavaScript's LineTerminator: where `^` and `$` match under the `m` flag, and what `.` refuses. */
  predicate IsLineTerminator(c: char) {
    c == '\n' || c == '\r' || c == '\U{2028}' || c == '\U{2029}'
  }

  /** `\s`: JavaScript's WhiteSpace and LineTerminator characters. */
  predicate IsSpace(c: char) {
    || c == '\t' || c == '\U{000B}' || c == '\U{000C}' || c == ' '
    || c == '\U{00A0}' || c == '\U{1680}' || ('\U{2000}' <= c <= '\U{200A}')
    || c == '\U{202F}' || c == '\U{205F}' || c == '\U{3000}' || c == '\U{FEFF}'
    || IsLineTerminator(c)
  }

  /** `\w`: ASCII letters, digits and underscore (the `i` flag adds nothing without `u`). */
  predicate IsWord(c: char) {
    ('a' <= c <= 'z') || ('A' <= c <= 'Z') || ('0' <= c <= '9') || c == '_'
  }

  /** The character classes a greedy run is taken over. */
  datatype Class =
    | Space      // \s
    | Word       // \w
    | Separator  // [\s?:]
    | Bracket    // [\[\]]

  predicate In(c: char, cls: Class) {
    match cls
    case Space => IsSpace(c)
    case Word => IsWord(c)
    case Separator => IsSpace(c) || c == '?' || c == ':'
    case Bracket => c == '[' || c == ']'
  }

  /** Every character of s[i..j] belongs to cls. */
  predicate All(s: string, i: nat, j: nat, cls: Class)
    requires i <= j <= |s|
  {
    forall k | i <= k < j :: In(s[k], cls)
  }

  /** The end of the longest run of cls starting at i: what a greedy `*` over cls consumes. */
  function RunEnd(s: string, i: nat, cls: Class): (j: nat)
    requires i <= |s|
    ensures i <= j <= |s|
    ensures All(s, i, j, cls)
    ensures j == |s| || !In(s[j], cls)
    decreases |s| - i
  {
    if i < |s| && In(s[i], cls) then RunEnd(s, i + 1, cls) else i
  }

  /** A run of cls that cannot be extended is the one RunEnd finds. */
  lemma RunEndUnique(s: string, i: nat, j: nat, cls: Class)
    requires i <= j <= |s| && All(s, i, j, cls)
    requires j == |s| || !In(s[j], cls)
    ensures RunEnd(s, i, cls) == j
  {
  }

  /** A greedy run reaches at least as far as any run of the same class. */
  lemma RunEndCovers(s: string, i: nat, j: nat, cls: Class)
    requires i <= j <= |s| && All(s, i, j, cls)
    ensures j <= RunEnd(s, i, cls)
  {
  }

  /** Every character of t is in cls. */
  predicate AllIn(t: string, cls: Class)
  {
    forall k | 0 <= k < |t| :: In(t[k], cls)
  }

  /** No line terminator in s[i..j]. */
  predicate NoLineTerminator(s: string, i: nat, j: nat)
    requires i <= j <= |s|
  {
    forall k | i <= k < j :: !IsLineTerminator(s[k])
  }

  /** ASCII case folding: JavaScript's `i` flag without `u` never folds a non-ASCII character onto an ASCII one. */
  function LowerAscii(c: char): (d: char)
    ensures 'A' <= c <= 'Z' ==> d as int == c as int + 32
    ensures !('A' <= c <= 'Z') ==> d == c
  {
    if 'A' <= c <= 'Z' then (c as int + 32) as char else c
  }

  /** s[i..] begins with the lower-case ASCII word w, compared case-insensitively. */
  predicate HasWordAt(s: string, i: nat, w: string)
  {
    i + |w| <= |s| && forall k | 0 <= k < |w| :: LowerAscii(s[i + k]) == w[k]
  }
}
