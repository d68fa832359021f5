/** The JavaScript coercions the source relies on, for the values a decoded query
    string or JSON body can hold: `String(v)`, truthiness, `parseInt(v, 10)`,
    `parseInt(v)` with its hexadecimal prefix, and `isNaN(v)`. Numbers are
    integers or NaN. */
module Js {
  import opened Strings
  import opened Wrappers

  /** A JavaScript number as far as the model needs one: an integer or NaN. */
  datatype Num = Int(value: int) | NaN

  /** A request parameter: a string, an array of strings (a repeated key), or a
      number that the server code itself stored. */
  datatype QueryValue = Text(s: string) | List(items: seq<string>) | Number(n: Num)

  /** A parameter object: absent keys read as `undefined`. */
  type Params = map<string, QueryValue>

  /** `params[key]`, with `None` for `undefined`. */
  function Get(params: Params, key: string): (r: Option<QueryValue>)
    ensures r.Some? <==> key in params
    ensures r.Some? ==> r.value == params[key]
  {
    if key in params then Some(params[key]) else None
  }

  /** `if (v)`: the empty string, 0 and NaN are falsy; arrays are always truthy. */
  predicate Truthy(v: QueryValue): (b: bool)
    ensures v.List? ==> b
    ensures v.Text? ==> (b <==> v.s != "")
    ensures v.Number? ==> (b <==> !IsNaN(v) && ToNumberValue(v) != Int(0))
  {
    match v
    case Text(s) => s != ""
    case List(_) => true
    case Number(n) => n.Int? && n.value != 0
  }

  /** `String(v)`; an array renders as its items joined by commas. */
  function ToText(v: QueryValue): string
  {
    match v
    case Text(s) => s
    case List(items) => Join(items, ",")
    case Number(Int(n)) => IntToString(n)
    case Number(NaN) => "NaN"
  }

  /** The longest prefix of s made of decimal digits. */
  function DigitPrefix(s: string): (r: string)
    ensures AllDigits(r) && |r| <= |s| && r == s[..|r|]
    ensures |r| < |s| ==> !IsDigit(s[|r|])
  {
    if s != [] && IsDigit(s[0]) then [s[0]] + DigitPrefix(s[1..]) else []
  }

  /** The part of a number literal after an optional leading sign, and the sign. */
  function SignOf(t: string): (r: (bool, string))
    ensures r.1 == if t != [] && (t[0] == '-' || t[0] == '+') then t[1..] else t
    ensures r.0 <==> t != [] && t[0] == '-'
  {
    if t != [] && (t[0] == '-' || t[0] == '+') then (t[0] == '-', t[1..]) else (false, t)
  }

  function Signed(negative: bool, magnitude: nat): int
  {
    if negative then -(magnitude as int) else magnitude
  }

  /** `parseInt(s, 10)`: skip leading white space, read an optional sign and the
      longest run of digits; no digit at all is NaN. */
  function ParseInt(s: string): (r: Num)
    ensures s == "" ==> r == NaN
    ensures s != "" && AllDigits(s) ==> r == Int(DigitsValue(s))
  {
    PlainDigits(s);
    var (negative, body) := SignOf(TrimStart(s));
    var digits := DigitPrefix(body);
    if digits == [] then NaN else Int(Signed(negative, DigitsValue(digits)))
  }

  predicate IsHexDigit(c: char)
  {
    IsDigit(c) || 'a' <= c <= 'f' || 'A' <= c <= 'F'
  }

  function HexDigitValue(c: char): nat
    requires IsHexDigit(c)
  {
    if IsDigit(c) then c as int - '0' as int
    else if 'a' <= c <= 'f' then c as int - 'a' as int + 10
    else c as int - 'A' as int + 10
  }

  /** The longest prefix of s made of hexadecimal digits. */
  function HexPrefix(s: string): (r: string)
    ensures |r| <= |s| && r == s[..|r|]
    ensures forall i | 0 <= i < |r| :: IsHexDigit(r[i])
  {
    if s != [] && IsHexDigit(s[0]) then [s[0]] + HexPrefix(s[1..]) else []
  }

  function HexValue(s: string): nat
    requires forall i | 0 <= i < |s| :: IsHexDigit(s[i])
  {
    if s == [] then 0 else HexValue(s[..|s| - 1]) * 16 + HexDigitValue(s[|s| - 1])
  }

  /** A literal body that starts with `0x` or `0X`. */
  predicate HexLiteral(body: string)
  {
    |body| >= 2 && body[0] == '0' && (body[1] == 'x' || body[1] == 'X')
  }

  /** `parseInt(s)` without a radix: as `parseInt(s, 10)`, except that a `0x` or
      `0X` after the sign switches to base 16. */
  function ParseIntAuto(s: string): (r: Num)
    ensures !HexLiteral(SignOf(TrimStart(s)).1) ==> r == ParseInt(s)
    ensures s != "" && AllDigits(s) ==> r == Int(DigitsValue(s))
  {
    PlainDigits(s);
    var (negative, body) := SignOf(TrimStart(s));
    if HexLiteral(body) then
      var digits := HexPrefix(body[2..]);
      if digits == [] then NaN else Int(Signed(negative, HexValue(digits)))
    else
      var digits := DigitPrefix(body);
      if digits == [] then NaN else Int(Signed(negative, DigitsValue(digits)))
  }

  /** `parseInt(v, 10)`: JavaScript converts the argument with `String` first. */
  function ParseIntValue(v: QueryValue): Num
  {
    ParseInt(ToText(v))
  }

  /** `Number(s)` for the literals the model recognises: white space around an
      optionally signed run of decimal digits; blank text is 0; anything else is NaN. */
  function ToNumber(s: string): (r: Num)
    ensures (forall i | 0 <= i < |s| :: IsSpace(s[i])) ==> r == Int(0)
    ensures s != "" && AllDigits(s) ==> r == Int(DigitsValue(s))
    ensures ',' in s ==> r.NaN?
  {
    TrimEmptyIffBlank(s);
    PlainDigits(s);
    CommaInBody(s);
    var t := Trim(s);
    var (negative, body) := SignOf(t);
    if t == "" then Int(0)
    else if body != [] && AllDigits(body) then Int(Signed(negative, DigitsValue(body)))
    else NaN
  }

  /** `Number(v)`. */
  function ToNumberValue(v: QueryValue): Num
  {
    match v
    case Number(n) => n
    case _ => ToNumber(ToText(v))
  }

  /** `isNaN(v)`. */
  predicate IsNaN(v: QueryValue): (b: bool)
    ensures v.Number? ==> (b <==> v.n.NaN?)
    ensures v.Text? && v.s != "" && AllDigits(v.s) ==> !b
    ensures v.Text? && ',' in v.s ==> b
  {
    ToNumberValue(v).NaN?
  }

  lemma {:induction false} DigitPrefixOfDigits(d: string)
    requires AllDigits(d)
    ensures DigitPrefix(d) == d
    decreases |d|
  {
    if d != [] {
      DigitPrefixOfDigits(d[1..]);
      assert [d[0]] + d[1..] == d;
    }
  }

  function Abs(n: int): nat { if n < 0 then -n else n }

  /** The decimal rendering of an integer is its sign and its digits, with no
      white space at either end. */
  lemma RenderedInteger(n: int)
    ensures TrimStart(IntToString(n)) == IntToString(n)
    ensures Trim(IntToString(n)) == IntToString(n)
    ensures SignOf(IntToString(n)) == (n < 0, Digits(Abs(n)))
  {
    var d := Digits(Abs(n));
    DigitsShape(Abs(n));
    var s := IntToString(n);
    assert IsDigit(d[0]) && IsDigit(d[|d| - 1]);
    if n < 0 {
      assert s == "-" + d;
      assert s[0] == '-' && s[1..] == d;
      assert s[|s| - 1] == d[|d| - 1];
    } else {
      assert s == d;
    }
    assert !IsSpace(s[0]) && !IsSpace(s[|s| - 1]);
    assert TrimStart(s) == s;
    assert TrimEnd(s) == s;
  }

  /** Rendering an integer and parsing it back, with `parseInt` or `Number`, gives
      the integer; "NaN" parses to NaN. So a number the server stores in a
      parameter is read back unchanged. */
  lemma ParseIntRoundTrip(n: int)
    ensures ParseInt(IntToString(n)) == Int(n)
    ensures ToNumber(IntToString(n)) == Int(n)
    ensures ParseIntValue(Number(Int(n))) == Int(n)
    ensures ParseIntValue(Number(NaN)) == NaN
  {
    ParseIntRendered(n);
    ToNumberRendered(n);
    ParseNaN();
  }

  /** `parseInt("NaN")` is NaN. */
  lemma ParseNaN()
    ensures ParseInt("NaN") == NaN
  {
    assert TrimStart("NaN") == "NaN";
    assert DigitPrefix("NaN") == [];
  }

  /** `parseInt(String(n), 10)` is n. */
  lemma ParseIntRendered(n: int)
    ensures ParseInt(IntToString(n)) == Int(n)
  {
    RenderedInteger(n);
    DigitsShape(Abs(n));
    DigitsRoundTrip(Abs(n));
    DigitPrefixOfDigits(Digits(Abs(n)));
  }

  /** `parseInt(String(n))` with no radix is n too: a rendered integer never
      starts with `0x`. */
  lemma ParseIntAutoRendered(n: int)
    ensures ParseIntAuto(IntToString(n)) == Int(n)
  {
    RenderedInteger(n);
    DigitsShape(Abs(n));
    DigitsRoundTrip(Abs(n));
    DigitPrefixOfDigits(Digits(Abs(n)));
    var body := Digits(Abs(n));
    assert |body| >= 2 ==> IsDigit(body[1]);
  }

  /** `Number(String(n))` is n. */
  lemma ToNumberRendered(n: int)
    ensures ToNumber(IntToString(n)) == Int(n)
  {
    RenderedInteger(n);
    DigitsShape(Abs(n));
    DigitsRoundTrip(Abs(n));
  }

  /** A text holding a comma is not a number, whatever surrounds the comma. */
  lemma CommaNotNumber(s: string)
    requires ',' in s
    ensures IsNaN(Text(s))
  {
    CommaInBody(s);
  }

  /** A comma survives trimming and the sign: the literal is not all digits. */
  lemma CommaInBody(s: string)
    ensures ',' in s ==> Trim(s) != "" && !AllDigits(SignOf(Trim(s)).1)
  {
    if ',' in s {
      TrimKeeps(s, ',');
      var t := Trim(s);
      var body := SignOf(t).1;
      assert ',' in body by {
        var i :| 0 <= i < |t| && t[i] == ',';
        if t[0] == '-' || t[0] == '+' {
          assert body[i - 1] == ',';
        } else {
          assert body[i] == ',';
        }
      }
      assert !AllDigits(body);
    }
  }

  /** The digit prefix stops at the first character that is not a digit. */
  lemma {:induction false} DigitPrefixStops(d: string, rest: string)
    requires AllDigits(d) && (rest == [] || !IsDigit(rest[0]))
    ensures DigitPrefix(d + rest) == d
    decreases |d|
  {
    if d == [] {
      assert d + rest == rest;
    } else {
      assert (d + rest)[0] == d[0] && (d + rest)[1..] == d[1..] + rest;
      DigitPrefixStops(d[1..], rest);
      assert [d[0]] + d[1..] == d;
    }
  }

  /** Digits followed by other text parse as the digits alone, with or without
      a radix (unless the text makes a `0x` prefix). */
  lemma ParseDigitsThenText(d: string, rest: string)
    requires d != [] && AllDigits(d) && (rest == [] || !IsDigit(rest[0]))
    ensures ParseInt(d + rest) == Int(DigitsValue(d))
    ensures (rest == [] || (rest[0] != 'x' && rest[0] != 'X')) ==> ParseIntAuto(d + rest) == Int(DigitsValue(d))
  {
    var s := d + rest;
    assert s[0] == d[0];
    DigitUntrimmed(d[0]);
    assert TrimStart(s) == s;
    assert SignOf(s) == (false, s);
    DigitPrefixStops(d, rest);
    if |d| >= 2 {
      assert s[1] == d[1];
    } else if |s| >= 2 {
      assert s[1] == rest[0];
    }
  }

  /** A plain run of digits has no white space or sign to skip and is its own
      digit prefix. */
  lemma PlainDigits(s: string)
    ensures s != "" && AllDigits(s) ==>
      && TrimStart(s) == s && Trim(s) == s && SignOf(s) == (false, s)
      && DigitPrefix(s) == s && !HexLiteral(s)
  {
    if s != "" && AllDigits(s) {
      DigitUntrimmed(s[0]);
      DigitUntrimmed(s[|s| - 1]);
      assert TrimStart(s) == s;
      assert TrimEnd(s) == s;
      assert |s| >= 2 ==> IsDigit(s[1]);
      DigitPrefixOfDigits(s);
    }
  }

  lemma DigitUntrimmed(c: char)
    requires IsDigit(c)
    ensures !IsSpace(c) && c != '-' && c != '+'
  {
  }

  /** A parameter holding the decimal text of n is numeric and parses to n. */
  lemma RenderedParameter(n: int)
    ensures !IsNaN(Text(IntToString(n)))
    ensures ParseIntValue(Text(IntToString(n))) == Int(n)
    ensures Truthy(Text(IntToString(n)))
  {
    var s := IntToString(n);
    ParseIntRendered(n);
    ToNumberRendered(n);
    assert ToNumberValue(Text(s)) == ToNumber(s);
    assert ParseIntValue(Text(s)) == ParseInt(s);
    DigitsNonEmpty(Abs(n));
    assert s != "";
  }
}
