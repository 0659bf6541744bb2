/**
 * The parts of JavaScript's string library that the pages rely on:
 * `String.prototype.trim`, `Array.prototype.join` with a separator, and a
 * splitting function that reads a joined list back.
 */
module JsStrings {

  /** The code points ECMAScript classes as WhiteSpace or LineTerminator,
      which are exactly the ones `trim` strips. */
  predicate IsJsWhitespace(c: char)
  {
    // WhiteSpace: TAB, VT, FF, ZWNBSP and the space separators (category Zs)
    || c == '\U{9}' || c == '\U{B}' || c == '\U{C}' || c == '\U{FEFF}'
    || c == ' ' || c == '\U{A0}' || c == '\U{1680}' || ('\U{2000}' <= c <= '\U{200A}')
    || c == '\U{202F}' || c == '\U{205F}' || c == '\U{3000}'
    // LineTerminator: LF, CR, LINE SEPARATOR, PARAGRAPH SEPARATOR
    || c == '\U{A}' || c == '\U{D}' || c == '\U{2028}' || c == '\U{2029}'
  }

  predicate AllWhitespace(s: string)
  {
    forall i :: 0 <= i < |s| ==> IsJsWhitespace(s[i])
  }

  /** `s.trimStart()`: drops the leading whitespace. */
  function TrimStart(s: string): string
    decreases |s|
  {
    if |s| > 0 && IsJsWhitespace(s[0]) then TrimStart(s[1..]) else s
  }

  /** `s.trimEnd()`: drops the trailing whitespace. */
  function TrimEnd(s: string): string
    decreases |s|
  {
    if |s| > 0 && IsJsWhitespace(s[|s| - 1]) then TrimEnd(s[..|s| - 1]) else s
  }

  /** `s.trim()` */
  function Trim(s: string): string
  {
    TrimEnd(TrimStart(s))
  }

  /** `s.trim() === ""` */
  predicate IsBlank(s: string)
  {
    Trim(s) == ""
  }

  /** `trimStart` keeps a suffix that does not start with whitespace, and
      everything it drops is whitespace. */
  lemma {:induction false} TrimStartIsSuffix(s: string)
    ensures var r := TrimStart(s);
            && |r| <= |s| && r == s[|s| - |r|..]
            && (r != [] ==> !IsJsWhitespace(r[0]))
            && forall i :: 0 <= i < |s| - |r| ==> IsJsWhitespace(s[i])
    decreases |s|
  {
    if |s| > 0 && IsJsWhitespace(s[0]) {
      TrimStartIsSuffix(s[1..]);
    }
  }

  /** `trimEnd` keeps a prefix that does not end with whitespace, and
      everything it drops is whitespace. */
  lemma {:induction false} TrimEndIsPrefix(s: string)
    ensures var r := TrimEnd(s);
            && |r| <= |s| && r == s[..|r|]
            && (r != [] ==> !IsJsWhitespace(r[|r| - 1]))
            && forall i :: |r| <= i < |s| ==> IsJsWhitespace(s[i])
    decreases |s|
  {
    if |s| > 0 && IsJsWhitespace(s[|s| - 1]) {
      TrimEndIsPrefix(s[..|s| - 1]);
    }
  }

  /** A string trims to the empty string exactly when every character of it
      is whitespace. */
  lemma BlankIffAllWhitespace(s: string)
    ensures IsBlank(s) <==> AllWhitespace(s)
  {
    TrimStartIsSuffix(s);
    TrimEndIsPrefix(TrimStart(s));
  }

  /** `xs.join(sep)` */
  function Join(xs: seq<string>, sep: string): string
  {
    if |xs| == 0 then ""
    else if |xs| == 1 then xs[0]
    else xs[0] + sep + Join(xs[1..], sep)
  }

  /** The separator `Array.prototype.join` is called with on the pages. */
  const ListSeparator: string := ", "

  /** Whether ", " starts at index `j` of `s`. */
  predicate SeparatorAt(s: string, j: nat)
  {
    j + 1 < |s| && s[j] == ',' && s[j + 1] == ' '
  }

  /** Index of the first ", " in `s`, or `|s|` when there is none. */
  function IndexOfSeparator(s: string): (k: nat)
    ensures k == |s| || (k + 2 <= |s| && SeparatorAt(s, k))
    ensures forall j: nat :: j < k ==> !SeparatorAt(s, j)
    decreases |s|
  {
    if |s| < 2 then |s|
    else if SeparatorAt(s, 0) then 0
    else
      SeparatorShift(s);
      1 + IndexOfSeparator(s[1..])
  }

  lemma SeparatorShift(s: string)
    requires |s| > 0
    ensures forall j: nat {:trigger SeparatorAt(s, j)} :: j >= 1 ==> SeparatorAt(s, j) == SeparatorAt(s[1..], j - 1)
  {
  }

  /** Splits `s` at every ", ". */
  function Split(s: string): (parts: seq<string>)
    ensures |parts| >= 1
    decreases |s|
  {
    var k := IndexOfSeparator(s);
    if k == |s| then [s] else [s[..k]] + Split(s[k + 2..])
  }

  predicate HasNoComma(s: string)
  {
    forall i :: 0 <= i < |s| ==> s[i] != ','
  }

  lemma {:induction false} SeparatorAfterCommaFree(a: string, b: string)
    requires HasNoComma(a)
    ensures IndexOfSeparator(a + ListSeparator + b) == |a|
    decreases |a|
  {
    var s := a + ListSeparator + b;
    if |a| > 0 {
      assert s[0] == a[0];
      assert s[1..] == a[1..] + ListSeparator + b;
      SeparatorAfterCommaFree(a[1..], b);
    }
  }

  lemma NoSeparatorInCommaFree(a: string)
    requires HasNoComma(a)
    ensures IndexOfSeparator(a) == |a|
  {
  }

  /** Reading a joined list back: splitting `xs.join(", ")` at ", " gives `xs`
      again, as long as the list is non-empty and no element holds a comma. */
  lemma {:induction false} SplitJoin(xs: seq<string>)
    requires |xs| >= 1
    requires forall i :: 0 <= i < |xs| ==> HasNoComma(xs[i])
    ensures Split(Join(xs, ListSeparator)) == xs
    decreases |xs|
  {
    if |xs| == 1 {
      NoSeparatorInCommaFree(xs[0]);
    } else {
      var rest := Join(xs[1..], ListSeparator);
      var s := xs[0] + ListSeparator + rest;
      SeparatorAfterCommaFree(xs[0], rest);
      assert s[..|xs[0]|] == xs[0];
      assert s[|xs[0]| + 2..] == rest;
      SplitJoin(xs[1..]);
      assert [xs[0]] + xs[1..] == xs;
    }
  }
}
