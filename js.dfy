/**
 * The JavaScript runtime behaviour the request handlers depend on: values read
 * from a parsed JSON request body, truthiness (`!x`), thrown errors (among them
 * the notes library's `HttpError` class), and the string methods `trim`,
 * `toLowerCase` and `toUpperCase`.
 */
module Js {

  datatype Option<T> = None | Some(value: T)

  /** One property of a parsed JSON request body, as far as the handlers tell values apart. */
  datatype Field =
    | Undefined            // the property is absent, or the body is null or not an object
    | Null
    | Str(s: string)
    | Other(truthy: bool)  // a number, boolean, array or object, with its truthiness

  /** `!!f` */
  predicate Truthy(f: Field) {
    match f
    case Undefined => false
    case Null => false
    case Str(s) => s != ""
    case Other(t) => t
  }

  /** `!!s` for a value that is a string or undefined */
  predicate Present(s: Option<string>) {
    s.Some? && s.value != ""
  }

  /** A thrown value: an instance of `HttpError`, carrying the status and message it was built with, or any other error. */
  datatype Thrown = HttpError(status: int, message: string) | OtherError(message: string)

  /** What calling `x.trim()` or `x.toUpperCase()` on a value that is not a string throws. */
  const NotAFunction: Thrown := OtherError("TypeError: not a function")

  /** What `request.json()` throws for a body that is not valid JSON. */
  const InvalidJson: Thrown := OtherError("SyntaxError: invalid JSON")

  /** How a call completes: it returns a value or throws. */
  datatype Result<T> = Ok(value: T) | Throw(error: Thrown) {
    predicate IsFailure() { Throw? }
    function PropagateFailure<U>(): Result<U> requires Throw? { Throw(error) }
    function Extract(): T requires Ok? { value }
  }

  // ---------------------------------------------------------------------------
  // String.prototype.trim

  /** The WhiteSpace and LineTerminator code points that `trim` removes. */
  predicate IsWhitespace(c: char) {
    c in Whitespace
  }

  const Whitespace: set<char> := {
    '\t', '\n', '\U{000B}', '\U{000C}', '\r', ' ', '\U{00A0}', '\U{1680}',
    '\U{2000}', '\U{2001}', '\U{2002}', '\U{2003}', '\U{2004}', '\U{2005}', '\U{2006}',
    '\U{2007}', '\U{2008}', '\U{2009}', '\U{200A}',
    '\U{2028}', '\U{2029}', '\U{202F}', '\U{205F}', '\U{3000}', '\U{FEFF}'
  }

  ghost predicate AllWhitespace(s: string) {
    forall i :: 0 <= i < |s| ==> IsWhitespace(s[i])
  }

  /** Drops leading whitespace: the result is the suffix left after the longest all-whitespace prefix. */
  function TrimStart(s: string): (r: string)
    ensures |r| <= |s| && r == s[|s| - |r|..]
    ensures AllWhitespace(s[..|s| - |r|])
    ensures r == [] || !IsWhitespace(r[0])
    decreases |s|
  {
    if s != [] && IsWhitespace(s[0]) then TrimStart(s[1..]) else s
  }

  /** Drops trailing whitespace: the result is the prefix left before the longest all-whitespace suffix. */
  function TrimEnd(s: string): (r: string)
    ensures |r| <= |s| && r == s[..|r|]
    ensures AllWhitespace(s[|r|..])
    ensures r == [] || !IsWhitespace(r[|r| - 1])
    decreases |s|
  {
    if s != [] && IsWhitespace(s[|s| - 1]) then TrimEnd(s[..|s| - 1]) else s
  }

  /** `String.prototype.trim`: the result neither starts nor ends with whitespace. */
  function Trim(s: string): (r: string)
    ensures r == [] || (!IsWhitespace(r[0]) && !IsWhitespace(r[|r| - 1]))
  {
    TrimEnd(TrimStart(s))
  }

  /** `x?.trim()`: undefined for null or undefined, the trimmed text for a string, and a TypeError otherwise. */
  function OptionalTrim(f: Field): (r: Result<Option<string>>)
    ensures r.Throw? <==> f.Other?
    ensures r.Throw? ==> r.error == NotAFunction
    ensures r.Ok? ==> (r.value.Some? <==> f.Str?)
    ensures f.Str? ==> r.value.value == Trim(f.s)
  {
    match f
    case Undefined => Ok(None)
    case Null => Ok(None)
    case Str(s) => Ok(Some(Trim(s)))
    case Other(_) => Throw(NotAFunction)
  }

  lemma {:induction false} TrimStartUnique(x: string, m: nat)
    requires m <= |x| && AllWhitespace(x[..m])
    requires m == |x| || !IsWhitespace(x[m])
    ensures TrimStart(x) == x[m..]
    decreases m
  {
    if m > 0 {
      assert IsWhitespace(x[..m][0]);
      assert x[1..][..m - 1] == x[1..m];
      TrimStartUnique(x[1..], m - 1);
    }
  }

  lemma {:induction false} TrimEndUnique(x: string, m: nat)
    requires m <= |x| && AllWhitespace(x[m..])
    requires m == 0 || !IsWhitespace(x[m - 1])
    ensures TrimEnd(x) == x[..m]
    decreases |x| - m
  {
    if m < |x| {
      assert IsWhitespace(x[m..][|x| - 1 - m]);
      var y := x[..|x| - 1];
      assert y[m..] == x[m..|x| - 1];
      TrimEndUnique(y, m);
      assert y[..m] == x[..m];
    }
  }

  /** Leading whitespace followed by text that does not start with whitespace: `trimStart` drops exactly the whitespace. */
  lemma TrimStartSkips(front: string, y: string)
    requires AllWhitespace(front)
    requires y == [] || !IsWhitespace(y[0])
    ensures TrimStart(front + y) == y
  {
    var x := front + y;
    assert x[..|front|] == front;
    assert x[|front|..] == y;
    TrimStartUnique(x, |front|);
  }

  /** Text that does not end with whitespace followed by trailing whitespace: `trimEnd` drops exactly the whitespace. */
  lemma TrimEndSkips(y: string, back: string)
    requires AllWhitespace(back)
    requires y == [] || !IsWhitespace(y[|y| - 1])
    ensures TrimEnd(y + back) == y
  {
    var x := y + back;
    assert x[|y|..] == back;
    assert x[..|y|] == y;
    TrimEndUnique(x, |y|);
  }

  /** `trim` removes exactly the surrounding whitespace: padding a string that neither starts nor ends with whitespace and trimming gives it back. */
  lemma TrimPadded(front: string, core: string, back: string)
    requires AllWhitespace(front) && AllWhitespace(back)
    requires core == [] || (!IsWhitespace(core[0]) && !IsWhitespace(core[|core| - 1]))
    ensures Trim(front + core + back) == core
  {
    if core == [] {
      assert front + core + back == (front + back) + [];
      TrimStartSkips(front + back, []);
    } else {
      assert front + core + back == front + (core + back);
      TrimStartSkips(front, core + back);
      TrimEndSkips(core, back);
    }
  }

  /** A whitespace-only string trims to the empty string. */
  lemma TrimWhitespaceOnly(s: string)
    requires AllWhitespace(s)
    ensures Trim(s) == ""
  {
    TrimStartSkips(s, []);
    assert s + [] == s;
  }

  /** Trimming twice is trimming once. */
  lemma TrimIdempotent(s: string)
    ensures Trim(Trim(s)) == Trim(s)
  {
    var t := Trim(s);
    TrimStartSkips([], t);
    TrimEndSkips(t, []);
    assert [] + t == t && t + [] == t;
  }

  // ---------------------------------------------------------------------------
  // String.prototype.toLowerCase and toUpperCase, per code point. Only the
  // mappings whose result is an ASCII letter are kept.

  function LowerChar(c: char): char {
    if 'A' <= c <= 'Z' then (c as int + 32) as char
    else if c == '\U{212A}' then 'k'  // KELVIN SIGN
    else c
  }

  function UpperChar(c: char): char {
    if 'a' <= c <= 'z' then (c as int - 32) as char
    else if c == '\U{0131}' then 'I'  // LATIN SMALL LETTER DOTLESS I
    else if c == '\U{017F}' then 'S'  // LATIN SMALL LETTER LONG S
    else c
  }

  /** `String.prototype.toLowerCase`: each capital becomes its own small letter, the Kelvin sign 'k', and nothing else changes. */
  function ToLowerCase(s: string): (r: string)
    ensures |r| == |s|
    ensures forall i :: 0 <= i < |r| ==> !('A' <= r[i] <= 'Z')
    ensures forall i :: 0 <= i < |s| && 'A' <= s[i] <= 'Z' ==> r[i] as int == s[i] as int + 32
    ensures forall i :: 0 <= i < |s| && s[i] == '\U{212A}' ==> r[i] == 'k'
    ensures forall i :: 0 <= i < |s| && !('A' <= s[i] <= 'Z') && s[i] != '\U{212A}' ==> r[i] == s[i]
  {
    seq(|s|, i requires 0 <= i < |s| => LowerChar(s[i]))
  }

  /** `String.prototype.toUpperCase`: each small letter becomes its own capital, dotless ı 'I', long ſ 'S', and nothing else changes. */
  function ToUpperCase(s: string): (r: string)
    ensures |r| == |s|
    ensures forall i :: 0 <= i < |r| ==> !('a' <= r[i] <= 'z')
    ensures forall i :: 0 <= i < |s| && 'a' <= s[i] <= 'z' ==> r[i] as int == s[i] as int - 32
    ensures forall i :: 0 <= i < |s| && s[i] == '\U{0131}' ==> r[i] == 'I'
    ensures forall i :: 0 <= i < |s| && s[i] == '\U{017F}' ==> r[i] == 'S'
    ensures forall i :: 0 <= i < |s| && !('a' <= s[i] <= 'z') && s[i] != '\U{0131}' && s[i] != '\U{017F}' ==> r[i] == s[i]
  {
    seq(|s|, i requires 0 <= i < |s| => UpperChar(s[i]))
  }

  /** Two characters that are the same letter up to case: an ASCII letter and its other case, or two of k, K and the Kelvin sign. */
  predicate SameIgnoringCase(c: char, d: char) {
    || c == d
    || ('A' <= c <= 'Z' && d as int == c as int + 32)
    || ('A' <= d <= 'Z' && c as int == d as int + 32)
    || (c in "kK\U{212A}" && d in "kK\U{212A}")
  }

  lemma LowerCharEqual(c: char, d: char)
    ensures LowerChar(c) == LowerChar(d) <==> SameIgnoringCase(c, d)
  {
  }

  /**
   * Lower-casing is a case-insensitive key that merges nothing else: two strings
   * lower-case alike exactly when they agree character by character up to case.
   */
  lemma ToLowerCaseEqual(a: string, b: string)
    ensures ToLowerCase(a) == ToLowerCase(b) <==>
      |a| == |b| && forall i :: 0 <= i < |a| ==> SameIgnoringCase(a[i], b[i])
  {
    if ToLowerCase(a) == ToLowerCase(b) {
      forall i | 0 <= i < |a|
        ensures SameIgnoringCase(a[i], b[i])
      {
        assert ToLowerCase(a)[i] == ToLowerCase(b)[i];
        LowerCharEqual(a[i], b[i]);
      }
    }
    if |a| == |b| && forall i :: 0 <= i < |a| ==> SameIgnoringCase(a[i], b[i]) {
      forall i | 0 <= i < |a|
        ensures ToLowerCase(a)[i] == ToLowerCase(b)[i]
      {
        LowerCharEqual(a[i], b[i]);
      }
    }
  }

  /** Lower-casing twice is lower-casing once. */
  lemma ToLowerCaseIdempotent(s: string)
    ensures ToLowerCase(ToLowerCase(s)) == ToLowerCase(s)
  {
  }

  lemma LowerCharKeepsWhitespace(c: char)
    ensures IsWhitespace(LowerChar(c)) <==> IsWhitespace(c)
  {
  }

  lemma {:induction false} TrimStartToLowerCase(s: string)
    ensures TrimStart(ToLowerCase(s)) == ToLowerCase(TrimStart(s))
    decreases |s|
  {
    if s != [] {
      LowerCharKeepsWhitespace(s[0]);
      if IsWhitespace(s[0]) {
        assert ToLowerCase(s)[1..] == ToLowerCase(s[1..]);
        TrimStartToLowerCase(s[1..]);
      }
    }
  }

  lemma {:induction false} TrimEndToLowerCase(s: string)
    ensures TrimEnd(ToLowerCase(s)) == ToLowerCase(TrimEnd(s))
    decreases |s|
  {
    if s != [] {
      LowerCharKeepsWhitespace(s[|s| - 1]);
      if IsWhitespace(s[|s| - 1]) {
        assert ToLowerCase(s)[..|s| - 1] == ToLowerCase(s[..|s| - 1]);
        TrimEndToLowerCase(s[..|s| - 1]);
      }
    }
  }

  /** Lower-casing keeps whitespace and non-whitespace where they were, so it commutes with `trim`. */
  lemma TrimToLowerCaseCommute(s: string)
    ensures Trim(ToLowerCase(s)) == ToLowerCase(Trim(s))
  {
    TrimStartToLowerCase(s);
    TrimEndToLowerCase(TrimStart(s));
  }

  /** `x?.trim().toLowerCase()` */
  function OptionalTrimLower(f: Field): (r: Result<Option<string>>)
    ensures r.Throw? <==> f.Other?
    ensures r.Throw? ==> r.error == NotAFunction
    ensures r.Ok? ==> (r.value.Some? <==> f.Str?)
    ensures f.Str? ==> r.value.value == ToLowerCase(Trim(f.s))
  {
    var t :- OptionalTrim(f);
    Ok(if t.Some? then Some(ToLowerCase(t.value)) else None)
  }

  /** `x?.toUpperCase()` */
  function OptionalUpper(f: Field): (r: Result<Option<string>>)
    ensures r.Throw? <==> f.Other?
    ensures r.Throw? ==> r.error == NotAFunction
    ensures r.Ok? ==> (r.value.Some? <==> f.Str?)
    ensures f.Str? ==> r.value.value == ToUpperCase(f.s)
  {
    match f
    case Undefined => Ok(None)
    case Null => Ok(None)
    case Str(s) => Ok(Some(ToUpperCase(s)))
    case Other(_) => Throw(NotAFunction)
  }

  /** Trimming and lower-casing text that is already trimmed and lower-cased changes nothing. */
  lemma TrimLowerIdempotent(s: string)
    ensures var n := ToLowerCase(Trim(s)); ToLowerCase(Trim(n)) == n
  {
    var t := Trim(s);
    TrimToLowerCaseCommute(t);
    TrimIdempotent(s);
    ToLowerCaseIdempotent(t);
  }

  /** `x?.trim().toLowerCase()` on a string is its trimmed, lower-cased text. */
  lemma OptionalTrimLowerOfString(s: string)
    ensures OptionalTrimLower(Str(s)) == Ok(Some(ToLowerCase(Trim(s))))
  {
  }

  /** `x?.trim().toLowerCase()` of a string is a string that the same normalisation leaves unchanged. */
  lemma OptionalTrimLowerIdempotent(f: Field)
    requires f.Str?
    ensures var n := OptionalTrimLower(f);
      n.Ok? && n.value.Some? && OptionalTrimLower(Str(n.value.value)) == n
  {
    OptionalTrimLowerOfString(f.s);
    OptionalTrimLowerOfString(ToLowerCase(Trim(f.s)));
    TrimLowerIdempotent(f.s);
  }
}
