/** Values and string operations of the JavaScript runtime that the code base
    relies on: optional values (null/undefined), results of operations that
    can fail, the whitespace class \s / String.prototype.trim,
    String.prototype.toLowerCase restricted to ASCII letters, and the
    `length` of a string, which counts UTF-16 code units. */
module JsText {

  /** A value that may be null or undefined. */
  datatype Option<T> = None | Some(value: T) {
    function GetOr(default: T): T {
      if Some? then value else default
    }
  }

  /** The outcome of an operation that either produces a value or fails. */
  datatype Result<T, E> = Ok(value: T) | Err(error: E)

  /** JavaScript truthiness of an optional string: null, undefined and "" are falsy. */
  predicate Truthy(s: Option<string>) {
    s.Some? && s.value != ""
  }

  /** The ECMAScript WhiteSpace and LineTerminator code points: what a regex \s
      matches and what trim() removes. All of them lie in the Basic
      Multilingual Plane, so each is one UTF-16 code unit. */
  predicate IsSpace(c: char): (b: bool)
    ensures b ==> c as int <= 0xFFFF
  {
    c == '\t' || c == '\n' || c == '\U{B}' || c == '\U{C}' || c == '\r' || c == ' '
    || c == '\U{A0}' || c == '\U{1680}' || ('\U{2000}' <= c <= '\U{200A}')
    || c == '\U{2028}' || c == '\U{2029}' || c == '\U{202F}' || c == '\U{205F}'
    || c == '\U{3000}' || c == '\U{FEFF}'
  }

  predicate NoSpace(s: string) {
    forall k :: 0 <= k < |s| ==> !IsSpace(s[k])
  }

  /** Drops the longest prefix of whitespace. */
  function TrimStart(s: string): (r: string)
    ensures |r| <= |s| && r == s[|s| - |r|..]
    ensures r == [] || !IsSpace(r[0])
    ensures forall k :: 0 <= k < |s| - |r| ==> IsSpace(s[k])
  {
    if s != [] && IsSpace(s[0]) then TrimStart(s[1..]) else s
  }

  /** Drops the longest suffix of whitespace. */
  function TrimEnd(s: string): (r: string)
    ensures |r| <= |s| && r == s[..|r|]
    ensures r == [] || !IsSpace(r[|r| - 1])
    ensures forall k :: |r| <= k < |s| ==> IsSpace(s[k])
  {
    if s != [] && IsSpace(s[|s| - 1]) then TrimEnd(s[..|s| - 1]) else s
  }

  /** String.prototype.trim: the result is no longer than the input and
      neither starts nor ends with whitespace. */
  function Trim(s: string): (r: string)
    ensures |r| <= |s|
    ensures r == [] || (!IsSpace(r[0]) && !IsSpace(r[|r| - 1]))
  {
    TrimEnd(TrimStart(s))
  }

  /** The number of UTF-16 code units of one code point. */
  function CodeUnits(c: char): nat {
    if c as int > 0xFFFF then 2 else 1
  }

  /** String.prototype.length: code points above U+FFFF count twice, as a
      surrogate pair. */
  function Utf16Length(s: string): (n: nat)
    ensures |s| <= n <= 2 * |s|
  {
    if s == [] then 0 else CodeUnits(s[0]) + Utf16Length(s[1..])
  }

  /** Text within the Basic Multilingual Plane has one code unit per code point. */
  lemma {:induction false} Utf16LengthBmp(s: string)
    requires forall k :: 0 <= k < |s| ==> s[k] as int <= 0xFFFF
    ensures Utf16Length(s) == |s|
  {
    if s != [] {
      assert s[0] as int <= 0xFFFF;
      Utf16LengthBmp(s[1..]);
    }
  }

  /** The length of a concatenation is the sum of the lengths. */
  lemma {:induction false} Utf16LengthAppend(a: string, b: string)
    ensures Utf16Length(a + b) == Utf16Length(a) + Utf16Length(b)
  {
    if a == [] {
      assert a + b == b;
    } else {
      assert (a + b)[0] == a[0];
      assert (a + b)[1..] == a[1..] + b;
      Utf16LengthAppend(a[1..], b);
    }
  }

  /** An emoji outside the Basic Multilingual Plane is one code point but has
      length 2. */
  lemma EmojiHasLengthTwo()
    ensures |"\U{1F600}"| == 1 && Utf16Length("\U{1F600}") == 2
  {
    assert "\U{1F600}"[1..] == "";
  }

  /** Trimming never makes the length larger. */
  lemma TrimNoLonger(s: string)
    ensures Utf16Length(Trim(s)) <= Utf16Length(s)
  {
    var t := TrimStart(s);
    Utf16LengthSplit(s, |s| - |t|);
    var u := TrimEnd(t);
    Utf16LengthSplit(t, |u|);
  }

  /** Cutting a string in two splits its length. */
  lemma Utf16LengthSplit(s: string, i: nat)
    requires i <= |s|
    ensures Utf16Length(s[..i]) + Utf16Length(s[i..]) == Utf16Length(s)
  {
    assert s == s[..i] + s[i..];
    Utf16LengthAppend(s[..i], s[i..]);
  }

  /** A string without whitespace is its own trim. */
  lemma TrimNoSpace(s: string)
    requires NoSpace(s)
    ensures Trim(s) == s
  {
    var t := TrimStart(s);
    assert t == s;
    var u := TrimEnd(t);
    assert u == t;
  }

  /** The result of trim starts and ends with a non-space character (or is empty),
      and trimming again changes nothing. */
  lemma TrimIsTrimmed(s: string)
    ensures Trim(s) == [] || (!IsSpace(Trim(s)[0]) && !IsSpace(Trim(s)[|Trim(s)| - 1]))
    ensures Trim(Trim(s)) == Trim(s)
  {
    var t := TrimStart(s);
    var u := TrimEnd(t);
    if u != [] {
      assert u[0] == t[0];
    }
    var v := TrimStart(u);
    assert v == u;
    var w := TrimEnd(v);
    assert w == v;
  }

  /** toLowerCase on one character; only ASCII letters are mapped. */
  function LowerChar(c: char): char {
    if 'A' <= c <= 'Z' then (c as int + 32) as char else c
  }

  /** String.prototype.toLowerCase for ASCII text. */
  function ToLower(s: string): (r: string)
    ensures |r| == |s|
    ensures forall k :: 0 <= k < |s| ==> r[k] == LowerChar(s[k])
  {
    if s == [] then [] else [LowerChar(s[0])] + ToLower(s[1..])
  }

  /** Lower-casing never introduces whitespace. */
  lemma ToLowerNoSpace(s: string)
    requires NoSpace(s)
    ensures NoSpace(ToLower(s))
  {
    var r := ToLower(s);
    forall k | 0 <= k < |r|
      ensures !IsSpace(r[k])
    {
      assert r[k] == LowerChar(s[k]);
    }
  }

  /** The number a string of decimal digits denotes. */
  function DecimalValue(r: string): int {
    if r == [] then 0 else 10 * DecimalValue(r[..|r| - 1]) + (r[|r| - 1] as int - '0' as int)
  }

  /** Decimal digits of a natural number, as template literals print it. */
  function NatToDecimal(n: nat): (r: string)
    ensures r != []
    ensures forall k :: 0 <= k < |r| ==> '0' <= r[k] <= '9'
    ensures n > 0 ==> r[0] != '0'
  {
    if n < 10 then [('0' as int + n) as char]
    else NatToDecimal(n / 10) + [('0' as int + n % 10) as char]
  }

  /** The digits denote `n`. */
  lemma {:induction false} NatToDecimalValue(n: nat)
    ensures DecimalValue(NatToDecimal(n)) == n
  {
    if n >= 10 {
      NatToDecimalValue(n / 10);
      var r := NatToDecimal(n);
      assert r[..|r| - 1] == NatToDecimal(n / 10);
    }
  }
}
