/**
 * The part of `parse_function` that runs before the expression reaches
 * Python's compiler: surrounding whitespace is stripped, and an expression
 * with nothing left is refused.
 */
module Expression {

  /** The characters `str.strip()` removes when called without arguments:
      the characters for which `str.isspace()` holds. */
  const Whitespace: set<char> := {
    '\t', '\n', '\U{B}', '\U{C}', '\r',                   // U+0009..U+000D
    '\U{1C}', '\U{1D}', '\U{1E}', '\U{1F}',                // file, group, record, unit separators
    ' ', '\U{85}', '\U{A0}', '\U{1680}',
    '\U{2000}', '\U{2001}', '\U{2002}', '\U{2003}', '\U{2004}', '\U{2005}',
    '\U{2006}', '\U{2007}', '\U{2008}', '\U{2009}', '\U{200A}',
    '\U{2028}', '\U{2029}', '\U{202F}', '\U{205F}', '\U{3000}'
  }

  predicate IsWhitespace(c: char)
  {
    c in Whitespace
  }

  predicate AllWhitespace(s: string)
  {
    forall i :: 0 <= i < |s| ==> IsWhitespace(s[i])
  }

  /** The index of the first non-whitespace character of s at or after i
      (|s| if there is none). */
  function SkipLeading(s: string, i: nat): (j: nat)
    requires i <= |s|
    ensures i <= j <= |s|
    ensures forall k :: i <= k < j ==> IsWhitespace(s[k])
    ensures j < |s| ==> !IsWhitespace(s[j])
    decreases |s| - i
  {
    if i < |s| && IsWhitespace(s[i]) then SkipLeading(s, i + 1) else i
  }

  /** Moving down from j, but not below lo, the end of the last
      non-whitespace character of s[lo..j] (lo if there is none). */
  function SkipTrailing(s: string, lo: nat, j: nat): (i: nat)
    requires lo <= j <= |s|
    ensures lo <= i <= j
    ensures forall k :: i <= k < j ==> IsWhitespace(s[k])
    ensures i > lo ==> !IsWhitespace(s[i - 1])
    decreases j
  {
    if j > lo && IsWhitespace(s[j - 1]) then SkipTrailing(s, lo, j - 1) else j
  }

  /** s[lo..hi] is what is left of s once its surrounding whitespace is
      removed: everything outside it is whitespace, and a non-empty s[lo..hi]
      starts and ends on a non-whitespace character. */
  predicate Trimmed(s: string, lo: nat, hi: nat)
  {
    lo <= hi <= |s| &&
    (forall k :: 0 <= k < lo ==> IsWhitespace(s[k])) &&
    (forall k :: hi <= k < |s| ==> IsWhitespace(s[k])) &&
    (lo < hi ==> !IsWhitespace(s[lo]) && !IsWhitespace(s[hi - 1]))
  }

  /** `str.strip()`: the first non-whitespace character is found from the
      left, then the last one from the right, not crossing the first. The
      result is empty exactly when s is all whitespace, and otherwise starts
      and ends on a non-whitespace character. */
  function Strip(s: string): (r: string)
    ensures r == [] <==> AllWhitespace(s)
    ensures r != [] ==> !IsWhitespace(r[0]) && !IsWhitespace(r[|r| - 1])
  {
    var lo := SkipLeading(s, 0);
    var hi := SkipTrailing(s, lo, |s|);
    assert lo < |s| ==> lo < hi;
    s[lo..hi]
  }

  /** `Strip(s)` is the slice s[lo..lo + |Strip(s)|] of s that `Trimmed`
      describes. */
  lemma StripIsSlice(s: string) returns (lo: nat)
    ensures Trimmed(s, lo, lo + |Strip(s)|) && Strip(s) == s[lo..lo + |Strip(s)|]
  {
    lo := SkipLeading(s, 0);
    var hi := SkipTrailing(s, lo, |s|);
    assert Strip(s) == s[lo..hi];
  }

  /** Conversely, any slice `Trimmed` describes is `Strip(s)`. */
  lemma StripUnique(s: string, lo: nat, hi: nat)
    requires Trimmed(s, lo, hi)
    ensures Strip(s) == s[lo..hi]
  {
    var lo' := SkipLeading(s, 0);
    var hi' := SkipTrailing(s, lo', |s|);
    if lo < hi {
      assert lo' == lo && hi' == hi;
    } else {
      assert lo' == |s|;
    }
  }

  /** Stripping twice removes nothing more. */
  lemma StripIdempotent(s: string)
    ensures Strip(Strip(s)) == Strip(s)
  {
    var r := Strip(s);
    StripUnique(r, 0, |r|);
  }

  /** What `parse_function` has in hand after its first check. */
  datatype ParseOutcome =
    | Parsed(text: string)   // the stripped text, handed on to the compiler
    | EmptyExpression        // FunctionParserError("Expression cannot be empty.")

  /** The strip and the emptiness check of `parse_function`. */
  function ParseFunction(expression: string): (r: ParseOutcome)
    ensures r.EmptyExpression? <==> AllWhitespace(expression)
    ensures r.Parsed? ==> r.text != [] && r.text == Strip(expression) &&
                          !IsWhitespace(r.text[0]) && !IsWhitespace(r.text[|r.text| - 1])
  {
    var stripped := Strip(expression);
    if stripped == [] then EmptyExpression else Parsed(stripped)
  }

  /** Surrounding whitespace never changes the outcome. */
  lemma ParseIgnoresSurroundingWhitespace(pre: string, expression: string, post: string)
    requires AllWhitespace(pre) && AllWhitespace(post)
    ensures ParseFunction(pre + expression + post) == ParseFunction(expression)
  {
    StripIgnoresSurroundingWhitespace(pre, expression, post);
  }

  lemma StripIgnoresSurroundingWhitespace(pre: string, e: string, post: string)
    requires AllWhitespace(pre) && AllWhitespace(post)
    ensures Strip(pre + e + post) == Strip(e)
  {
    var lo := StripIsSlice(e);
    StripShift(pre, e, post, lo, lo + |Strip(e)|);
  }

  /** Helper: whitespace added around e keeps its `Trimmed` slice, which is
      then what `Strip` returns. */
  lemma StripShift(pre: string, e: string, post: string, lo: nat, hi: nat)
    requires AllWhitespace(pre) && AllWhitespace(post) && Trimmed(e, lo, hi)
    ensures Strip(pre + e + post) == e[lo..hi]
  {
    TrimmedShift(pre, e, post, lo, hi);
    StripUnique(pre + e + post, |pre| + lo, |pre| + hi);
  }

  lemma TrimmedShift(pre: string, e: string, post: string, lo: nat, hi: nat)
    requires AllWhitespace(pre) && AllWhitespace(post) && Trimmed(e, lo, hi)
    ensures Trimmed(pre + e + post, |pre| + lo, |pre| + hi)
    ensures (pre + e + post)[|pre| + lo..|pre| + hi] == e[lo..hi]
  {
    var full := pre + e + post;
    var n := |pre|;
    forall k | 0 <= k < n + lo
      ensures IsWhitespace(full[k])
    {
      if k < n { assert full[k] == pre[k]; } else { assert full[k] == e[k - n]; }
    }
    forall k | n + hi <= k < |full|
      ensures IsWhitespace(full[k])
    {
      if k < n + |e| { assert full[k] == e[k - n]; } else { assert full[k] == post[k - n - |e|]; }
    }
    forall k | n + lo <= k < n + hi
      ensures full[k] == e[k - n]
    {
    }
    assert full[n + lo..n + hi] == e[lo..hi];
  }
}
