/**
 * The JavaScript notions the source relies on when it inspects request and
 * socket payloads: dynamically typed values, truthiness (`!x`), the string
 * form a value takes when a regular expression tests it, `length` in UTF-16
 * code units, and `trim`, `split` and `join`.
 */
module Js {

  /** A value as it can arrive in a JSON request body or a socket payload.
      Numbers are limited to integers; `Object` stands for any object that is not an array. */
  datatype Value = Undefined | Null | Bool(b: bool) | Num(n: int) | Str(s: string) | Arr(items: seq<Value>) | Object

  /** `!!v` in JavaScript: the six falsy values aside, every value, even an empty array or object, is truthy. */
  predicate Truthy(v: Value)
    ensures !Truthy(v) <==> v in {Undefined, Null, Bool(false), Num(0), Str("")}
  {
    match v
    case Undefined => false
    case Null => false
    case Bool(b) => b
    case Num(n) => n != 0
    case Str(s) => s != ""
    case Arr(_) => true
    case Object => true
  }

  /** `a || b`: the first operand when it is truthy, the second otherwise. */
  function Or(a: Value, b: Value): (r: Value)
    ensures Truthy(a) ==> r == a
    ensures !Truthy(a) ==> r == b
  {
    if Truthy(a) then a else b
  }

  /** The characters `trim` removes: WhiteSpace and LineTerminator of ECMA-262. */
  predicate IsWhitespace(c: char) {
    || c == '\t' || c == '\n' || c == '\U{B}' || c == '\U{C}' || c == '\r' || c == ' '
    || c == '\U{A0}' || c == '\U{1680}' || '\U{2000}' <= c <= '\U{200A}'
    || c == '\U{2028}' || c == '\U{2029}' || c == '\U{202F}' || c == '\U{205F}'
    || c == '\U{3000}' || c == '\U{FEFF}'
  }

  /** Every character is whitespace: `s.trim().length === 0`. */
  predicate IsBlank(s: string) {
    forall i :: 0 <= i < |s| ==> IsWhitespace(s[i])
  }

  function TrimStart(s: string): (r: string)
    ensures |r| <= |s| && r == s[|s| - |r|..]
    ensures IsBlank(s[..|s| - |r|])
    ensures r != "" ==> !IsWhitespace(r[0])
  {
    if s != "" && IsWhitespace(s[0]) then TrimStart(s[1..]) else s
  }

  function TrimEnd(s: string): (r: string)
    ensures |r| <= |s| && r == s[..|r|]
    ensures IsBlank(s[|r|..])
    ensures r != "" ==> !IsWhitespace(r[|r| - 1])
  {
    if s != "" && IsWhitespace(s[|s| - 1]) then TrimEnd(s[..|s| - 1]) else s
  }

  /** `s.trim()`: `s` with its leading and trailing whitespace removed (`TrimIsMiddle`). */
  function Trim(s: string): (r: string)
    ensures |r| <= |s|
    ensures r != "" ==> !IsWhitespace(r[0]) && !IsWhitespace(r[|r| - 1])
  {
    var t := TrimStart(s);
    var r := TrimEnd(t);
    assert r != "" ==> r[0] == t[0];
    r
  }

  /** What `trim` keeps is one run of `s`, starting where `trimStart` stops, and every character before and after that run is whitespace. */
  lemma {:induction false} TrimIsMiddle(s: string)
    ensures var r := Trim(s);
            var a := |s| - |TrimStart(s)|;
            && a + |r| <= |s|
            && (forall i :: 0 <= i < |r| ==> r[i] == s[a + i])
            && (forall i :: 0 <= i < |s| && (i < a || a + |r| <= i) ==> IsWhitespace(s[i]))
  {
    var t := TrimStart(s);
    var r := TrimEnd(t);
    var a := |s| - |t|;
    assert t == s[a..] && IsBlank(s[..a]);
    assert r == t[..|r|] && IsBlank(t[|r|..]);
    forall i | 0 <= i < |r| ensures r[i] == s[a + i] {
      assert r[i] == t[i] == s[a + i];
    }
    forall i | 0 <= i < |s| && (i < a || a + |r| <= i) ensures IsWhitespace(s[i]) {
      if i < a {
        assert s[..a][i] == s[i];
      } else {
        assert t[|r|..][i - a - |r|] == t[i - a] == s[i];
      }
    }
  }

  /** Trimming gives the empty string exactly when the string is blank. */
  lemma {:induction false} TrimEmptyIffBlank(s: string)
    ensures Trim(s) == "" <==> IsBlank(s)
  {
    var t := TrimStart(s);
    var r := TrimEnd(t);
    var i := |s| - |t|;
    assert t == s[i..] && IsBlank(s[..i]);
    if r == "" {
      assert t[|r|..] == t;
      forall k | 0 <= k < |s| ensures IsWhitespace(s[k]) {
        if k < i { assert s[..i][k] == s[k]; } else { assert t[k - i] == s[k]; }
      }
    } else {
      assert r[0] == t[0] == s[i];
    }
  }

  predicate IsDigit(c: char) { '0' <= c <= '9' }

  function DigitValue(c: char): (d: nat)
    requires IsDigit(c)
    ensures d < 10
  {
    c as int - '0' as int
  }

  function DigitChar(d: nat): (c: char)
    requires d < 10
    ensures IsDigit(c) && DigitValue(c) == d
  {
    (d + '0' as int) as char
  }

  predicate AllDigits(s: string) {
    forall i :: 0 <= i < |s| ==> IsDigit(s[i])
  }

  /** The number a run of decimal digits denotes, most significant first. */
  function DecimalValue(s: string): nat
    requires AllDigits(s)
  {
    if s == [] then 0 else 10 * DecimalValue(s[..|s| - 1]) + DigitValue(s[|s| - 1])
  }

  /** The text `String(n)` gives an integer: an optional minus sign, then
      digits without a leading zero. */
  predicate IsNumeral(s: string) {
    var digits := if s != [] && s[0] == '-' then s[1..] else s;
    digits != [] && AllDigits(digits) && (digits[0] == '0' ==> digits == "0")
    && (s != [] && s[0] == '-' ==> digits != "0")
  }

  /** The integer a numeral denotes. */
  function NumeralValue(s: string): int
    requires IsNumeral(s)
  {
    if s[0] == '-' then -(DecimalValue(s[1..]) as int) else DecimalValue(s)
  }

  /** `String(n)` for a natural number: its digits, read back as `n`. */
  function NatToString(n: nat): (r: string)
    ensures r != [] && AllDigits(r) && (r[0] == '0' ==> r == "0")
    ensures DecimalValue(r) == n
  {
    if n < 10 then [DigitChar(n)]
    else
      var r := NatToString(n / 10) + [DigitChar(n % 10)];
      assert r[..|r| - 1] == NatToString(n / 10);
      r
  }

  /** `String(n)` for an integer: a numeral that reads back as `n`. */
  function IntToString(n: int): (r: string)
    ensures IsNumeral(r) && NumeralValue(r) == n
    ensures r[|r| - 1] != '-' && IsDigit(r[|r| - 1])
  {
    if n < 0 then
      var r := "-" + NatToString(-n);
      assert r[1..] == NatToString(-n);
      r
    else NatToString(n)
  }

  /** Distinct integers print differently. */
  lemma IntToStringInjective(m: int, n: int)
    requires IntToString(m) == IntToString(n)
    ensures m == n
  {
  }

  /**
   * `String(v)`: the text a regular expression's `test` examines. An array
   * reads as its elements' strings joined with commas, `undefined` and
   * `null` elements reading as empty.
   */
  function ToString(v: Value): (r: string)
    ensures v.Arr? && |v.items| == 1 && v.items[0].Str? ==> r == v.items[0].s
    ensures v.Arr? && v.items == [] ==> r == ""
  {
    match v
    case Undefined => "undefined"
    case Null => "null"
    case Bool(b) => if b then "true" else "false"
    case Num(n) => IntToString(n)
    case Str(s) => s
    case Arr(items) =>
      Join(seq(|items|, i requires 0 <= i < |items| =>
                 if items[i].Undefined? || items[i].Null? then "" else ToString(items[i])), ",")
    case Object => "[object Object]"
  }

  /** `s.length`: UTF-16 code units, two for each character outside the Basic Multilingual Plane. */
  function Utf16Length(s: string): (n: nat)
    ensures |s| <= n <= 2 * |s|
  {
    if s == [] then 0 else Utf16Length(s[1..]) + (if s[0] < '\U{10000}' then 1 else 2)
  }

  /**
   * The length equals the number of characters exactly when none is astral,
   * and twice that number exactly when all are.
   */
  lemma {:induction false} Utf16LengthCounts(s: string)
    ensures Utf16Length(s) == |s| <==> forall i :: 0 <= i < |s| ==> s[i] < '\U{10000}'
    ensures Utf16Length(s) == 2 * |s| <==> forall i :: 0 <= i < |s| ==> s[i] >= '\U{10000}'
  {
    if s != [] {
      Utf16LengthCounts(s[1..]);
      assert forall i :: 1 <= i < |s| ==> s[i] == s[1..][i - 1];
    }
  }

  /** A character outside the Basic Multilingual Plane, such as U+1F600, has length 2. */
  lemma AstralCountsTwo(c: char)
    requires c >= '\U{10000}'
    ensures Utf16Length([c]) == 2
  {
  }

  function TotalLength(parts: seq<string>): nat {
    if parts == [] then 0 else |parts[0]| + TotalLength(parts[1..])
  }

  /** `parts.join(sep)`. */
  function Join(parts: seq<string>, sep: string): (s: string)
    ensures parts == [] ==> s == ""
    ensures parts != [] ==> |s| == TotalLength(parts) + (|parts| - 1) * |sep|
    ensures parts != [] ==> s[..|parts[0]|] == parts[0]
  {
    if parts == [] then ""
    else if |parts| == 1 then parts[0]
    else parts[0] + sep + Join(parts[1..], sep)
  }

  /** Joining one more part puts the separator before it. */
  lemma {:induction false} JoinSnoc(parts: seq<string>, x: string, sep: string)
    requires parts != []
    ensures Join(parts + [x], sep) == Join(parts, sep) + sep + x
  {
    if |parts| == 1 {
      assert parts + [x] == [parts[0], x];
    } else {
      assert (parts + [x])[1..] == parts[1..] + [x];
      JoinSnoc(parts[1..], x, sep);
    }
  }

  /** `s.split(sep)` for a one-character separator. */
  function Split(s: string, sep: char): (parts: seq<string>)
    ensures |parts| >= 1
    ensures forall i :: 0 <= i < |parts| ==> sep !in parts[i]
  {
    if s == [] then [""]
    else if s[0] == sep then [""] + Split(s[1..], sep)
    else
      var rest := Split(s[1..], sep);
      [[s[0]] + rest[0]] + rest[1..]
  }

  /** Joining the parts of a split with its separator gives the string back. */
  lemma {:induction false} JoinSplit(s: string, sep: char)
    ensures Join(Split(s, sep), [sep]) == s
  {
    if s != [] {
      var rest := Split(s[1..], sep);
      JoinSplit(s[1..], sep);
      if s[0] == sep {
        assert Join([""] + rest, [sep]) == "" + [sep] + Join(rest, [sep]);
      } else {
        JoinFirst([s[0]], rest, [sep]);
        assert [s[0]] + s[1..] == s;
      }
    }
  }

  /** Prefixing the first part prefixes the joined string. */
  lemma JoinFirst(c: string, parts: seq<string>, sep: string)
    requires parts != []
    ensures Join([c + parts[0]] + parts[1..], sep) == c + Join(parts, sep)
  {
    if |parts| > 1 {
      assert ([c + parts[0]] + parts[1..])[1..] == parts[1..];
    }
  }

  /** Splitting parts joined with a separator none of them holds gives the parts back. */
  lemma {:induction false} SplitJoin(parts: seq<string>, sep: char)
    requires parts != []
    requires forall i :: 0 <= i < |parts| ==> sep !in parts[i]
    ensures Split(Join(parts, [sep]), sep) == parts
  {
    if |parts| == 1 {
      SplitWhole(parts[0], sep);
    } else {
      var rest := Join(parts[1..], [sep]);
      assert parts[0] + [sep] + rest == parts[0] + ([sep] + rest);
      SplitWord(parts[0], [sep] + rest, sep);
      assert ([sep] + rest)[1..] == rest;
      SplitJoin(parts[1..], sep);
    }
  }

  /** A first word without the separator splits off as its own part. */
  lemma {:induction false} SplitWord(word: string, rest: string, sep: char)
    requires sep !in word && rest != [] && rest[0] == sep
    ensures Split(word + rest, sep) == [word] + Split(rest[1..], sep)
  {
    if word != [] {
      assert (word + rest)[0] == word[0] != sep;
      assert (word + rest)[1..] == word[1..] + rest;
      SplitWord(word[1..], rest, sep);
      assert [word[0]] + word[1..] == word;
    } else {
      assert word + rest == rest;
    }
  }

  /** A word without the separator splits into itself alone. */
  lemma {:induction false} SplitWhole(word: string, sep: char)
    requires sep !in word
    ensures Split(word, sep) == [word]
  {
    if word != [] {
      assert word[0] != sep;
      SplitWhole(word[1..], sep);
      assert [word[0]] + word[1..] == word;
    }
  }
}
