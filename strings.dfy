/** Plain text helpers shared by the whole model: decimal rendering of integers,
    substring search, trimming, splitting and joining, case folding for ASCII,
    lexicographic comparison and counting of SQL `?` placeholders. */
module Strings {

  /** The ASCII decimal digit for 0 <= d < 10. */
  function DigitChar(d: nat): (c: char)
    requires d < 10
    ensures '0' <= c <= '9'
    ensures c as int - '0' as int == d
  {
    ['0', '1', '2', '3', '4', '5', '6', '7', '8', '9'][d]
  }

  predicate IsDigit(c: char) { '0' <= c <= '9' }

  predicate AllDigits(s: string) { forall i | 0 <= i < |s| :: IsDigit(s[i]) }

  /** Decimal digits of a natural number, most significant first, no leading zero. */
  function Digits(n: nat): (s: string)
    decreases n
  {
    if n < 10 then [DigitChar(n)] else Digits(n / 10) + [DigitChar(n % 10)]
  }

  /** Value of a string of decimal digits (the empty string is 0). */
  function DigitsValue(s: string): nat
    requires AllDigits(s)
  {
    if s == [] then 0
    else DigitsValue(s[..|s| - 1]) * 10 + (s[|s| - 1] as int - '0' as int)
  }

  lemma {:induction false} DigitsShape(n: nat)
    ensures |Digits(n)| >= 1 && AllDigits(Digits(n))
    ensures n >= 10 ==> Digits(n)[0] != '0'
    ensures n < 10 ==> |Digits(n)| == 1
    ensures 10 <= n < 100 ==> |Digits(n)| == 2
    ensures 100 <= n < 1000 ==> |Digits(n)| == 3
    ensures 1000 <= n < 10000 ==> |Digits(n)| == 4
    decreases n
  {
    if n >= 10 {
      DigitsShape(n / 10);
    }
  }

  /** A number from 10000 up has at least five digits. */
  lemma {:induction false} DigitsLong(n: nat)
    requires n >= 10000
    ensures |Digits(n)| >= 5
    decreases n
  {
    if n / 10 >= 10000 {
      DigitsLong(n / 10);
    } else {
      DigitsShape(n / 10);
    }
  }

  /** Reading the digits back gives the number: the round trip of Digits. */
  lemma {:induction false} DigitsRoundTrip(n: nat)
    ensures AllDigits(Digits(n)) && DigitsValue(Digits(n)) == n
    decreases n
  {
    DigitsShape(n);
    if n >= 10 {
      DigitsRoundTrip(n / 10);
      var s := Digits(n);
      assert s[..|s| - 1] == Digits(n / 10);
    }
  }

  /** String(n) for an integer n: JavaScript renders integers in plain decimal. */
  function IntToString(n: int): (s: string)
  {
    if n < 0 then "-" + Digits(-n) else Digits(n)
  }

  /** `String(n).padStart(2, '0')` for an integer n. */
  function Pad2(n: int): (s: string)
  {
    var t := IntToString(n);
    if |t| < 2 then "0" + t else t
  }

  /** For 0 <= n < 100 padding gives the tens digit followed by the units digit. */
  lemma Pad2Digits(n: int)
    requires 0 <= n < 100
    ensures Pad2(n) == [DigitChar(n / 10), DigitChar(n % 10)]
  {
    DigitsShape(n);
    if n >= 10 {
      assert Digits(n) == Digits(n / 10) + [DigitChar(n % 10)];
    }
  }

  /** `hay.includes(needle)`: needle occurs as a contiguous piece of hay. */
  predicate Contains(hay: string, needle: string)
  {
    exists i | 0 <= i <= |hay| - |needle| :: OccursAt(hay, needle, i)
  }

  /** needle occurs in hay starting at index i. */
  predicate OccursAt(hay: string, needle: string, i: nat)
  {
    i + |needle| <= |hay| && hay[i..i + |needle|] == needle
  }

  lemma ContainsItself(s: string)
    ensures Contains(s, s)
  {
    assert OccursAt(s, s, 0);
  }

  /** The characters JavaScript's `trim`, `parseInt` and `Number` skip: the
      WhiteSpace and LineTerminator productions of ECMAScript (tab, vertical tab,
      form feed, space, no-break space, the byte order mark and the other Unicode
      space separators; line feed, carriage return, line and paragraph separator). */
  predicate IsSpace(c: char)
  {
    if c <= ' ' then
      c == ' ' || c == '\t' || c == '\n' || c == '\r' || c == '\U{000B}' || c == '\U{000C}'
    else
      || c == '\U{00A0}' || c == '\U{1680}' || '\U{2000}' <= c <= '\U{200A}'
      || c == '\U{2028}' || c == '\U{2029}' || c == '\U{202F}' || c == '\U{205F}'
      || c == '\U{3000}' || c == '\U{FEFF}'
  }

  /** The ideographic space that Chinese input methods type is blank. */
  lemma IdeographicSpaceBlank()
    ensures Trim("\U{3000}") == "" && Trim(" \U{3000}\U{00A0}") == ""
  {
    assert TrimStart("\U{3000}") == "";
    assert TrimStart(" \U{3000}\U{00A0}") == "";
  }

  function TrimStart(s: string): (r: string)
    ensures |r| <= |s| && r == s[|s| - |r|..]
    ensures r == [] || !IsSpace(r[0])
  {
    if s != [] && IsSpace(s[0]) then TrimStart(s[1..]) else s
  }

  function TrimEnd(s: string): (r: string)
    ensures |r| <= |s| && r == s[..|r|]
    ensures r == [] || !IsSpace(r[|r| - 1])
  {
    if s != [] && IsSpace(s[|s| - 1]) then TrimEnd(s[..|s| - 1]) else s
  }

  /** `s.trim()`. */
  function Trim(s: string): (r: string)
  {
    TrimEnd(TrimStart(s))
  }

  /** Trimming keeps every character that is not white space. */
  lemma {:induction false} TrimStartKeeps(s: string, c: char)
    requires c in s && !IsSpace(c)
    ensures c in TrimStart(s)
    decreases |s|
  {
    if s != [] && IsSpace(s[0]) {
      assert s[0] != c;
      TrimStartKeeps(s[1..], c);
    }
  }

  lemma {:induction false} TrimEndKeeps(s: string, c: char)
    requires c in s && !IsSpace(c)
    ensures c in TrimEnd(s)
    decreases |s|
  {
    if s != [] && IsSpace(s[|s| - 1]) {
      var i :| 0 <= i < |s| && s[i] == c;
      assert i < |s| - 1 && s[..|s| - 1][i] == c;
      TrimEndKeeps(s[..|s| - 1], c);
    }
  }

  lemma TrimKeeps(s: string, c: char)
    requires c in s && !IsSpace(c)
    ensures c in Trim(s)
  {
    TrimStartKeeps(s, c);
    TrimEndKeeps(TrimStart(s), c);
  }

  /** A string that is not only white space keeps a non-space character after trimming. */
  lemma {:induction false} TrimEmptyIffBlank(s: string)
    ensures Trim(s) == [] <==> forall i | 0 <= i < |s| :: IsSpace(s[i])
    decreases |s|
  {
    if s != [] && IsSpace(s[0]) {
      TrimEmptyIffBlank(s[1..]);
      assert Trim(s) == Trim(s[1..]);
      if forall i | 0 <= i < |s[1..]| :: IsSpace(s[1..][i]) {
        forall i | 0 <= i < |s| ensures IsSpace(s[i]) {
          if i > 0 { assert s[i] == s[1..][i - 1]; }
        }
      }
    } else if s != [] {
      var t := TrimStart(s);
      assert t == s;
      TrimEndKeepsHead(s);
    }
  }

  lemma {:induction false} TrimEndKeepsHead(s: string)
    requires s != [] && !IsSpace(s[0])
    ensures TrimEnd(s) != []
    decreases |s|
  {
    if IsSpace(s[|s| - 1]) {
      assert |s| > 1;
      TrimEndKeepsHead(s[..|s| - 1]);
    }
  }

  /** ASCII `toLowerCase`; other characters are left as they are. */
  function LowerChar(c: char): char
  {
    if 'A' <= c <= 'Z' then (c as int + 32) as char else c
  }

  /** ASCII upper case of a letter; other characters are left as they are. */
  function UpperChar(c: char): char
  {
    if 'a' <= c <= 'z' then (c as int - 32) as char else c
  }

  function ToLower(s: string): (r: string)
    ensures |r| == |s|
    ensures forall i | 0 <= i < |s| :: r[i] == LowerChar(s[i])
  {
    if s == [] then [] else [LowerChar(s[0])] + ToLower(s[1..])
  }

  /** The text before the first occurrence of `sep`, or all of s: `s.split(sep)[0]`. */
  function FieldBefore(s: string, sep: char): (r: string)
    ensures |r| <= |s| && r == s[..|r|]
    ensures sep !in r
    ensures |r| < |s| ==> s[|r|] == sep
  {
    if s == [] || s[0] == sep then [] else [s[0]] + FieldBefore(s[1..], sep)
  }

  /** The text after the first occurrence of `sep` (requires one). */
  function FieldAfter(s: string, sep: char): (r: string)
    requires sep in s
    ensures |FieldBefore(s, sep)| < |s|
    ensures s == FieldBefore(s, sep) + [sep] + r
  {
    s[|FieldBefore(s, sep)| + 1..]
  }

  /** Splitting `a + sep + b` at its first separator gives back a and b when a
      holds no separator; a text without the separator is a single field. */
  lemma FieldSplit(a: string, sep: char, b: string)
    requires sep !in a
    ensures FieldBefore(a, sep) == a
    ensures FieldBefore(a + [sep] + b, sep) == a
    ensures FieldAfter(a + [sep] + b, sep) == b
  {
    var s := a + [sep] + b;
    assert s[|a|] == sep;
    assert forall i | 0 <= i < |a| :: s[i] == a[i];
  }

  /** The first two fields of `a + sep + b` are a and b when neither holds the
      separator. */
  lemma FieldPair(a: string, sep: char, b: string)
    requires sep !in a && sep !in b
    ensures sep in a + [sep] + b
    ensures FieldBefore(a + [sep] + b, sep) == a
    ensures FieldBefore(FieldAfter(a + [sep] + b, sep), sep) == b
  {
    assert (a + [sep] + b)[|a|] == sep;
    FieldSplit(a, sep, b);
    FieldSplit(b, sep, "");
  }

  /** The decimal text of an integer is a sign and digits: no comma or space. */
  lemma IntToStringChars(n: int)
    ensures forall i | 0 <= i < |IntToString(n)| :: IntToString(n)[i] == '-' || IsDigit(IntToString(n)[i])
    ensures ',' !in IntToString(n)
  {
    DigitsShape(if n < 0 then -n else n);
    var s := IntToString(n);
    assert forall i | 0 <= i < |s| :: s[i] == '-' || IsDigit(s[i]);
  }

  /** `parts.join(sep)`. */
  function Join(parts: seq<string>, sep: string): string
  {
    if parts == [] then ""
    else if |parts| == 1 then parts[0]
    else parts[0] + sep + Join(parts[1..], sep)
  }

  /** Parts and separator without a `?` join to a text without one. */
  lemma {:induction false} JoinNoMark(parts: seq<string>, sep: string)
    requires forall p | p in parts :: '?' !in p
    requires '?' !in sep
    ensures '?' !in Join(parts, sep)
    decreases |parts|
  {
    if |parts| > 1 {
      assert forall p | p in parts[1..] :: p in parts;
      JoinNoMark(parts[1..], sep);
    } else if |parts| == 1 {
      assert parts[0] in parts;
    }
  }

  /** Joining two non-empty groups and then joining the two results with the same
      separator is joining all the parts at once. */
  lemma {:induction false} JoinAppend(a: seq<string>, b: seq<string>, sep: string)
    requires a != [] && b != []
    ensures Join(a + b, sep) == Join(a, sep) + sep + Join(b, sep)
    decreases |a|
  {
    if |a| == 1 {
      assert (a + b)[1..] == b;
    } else {
      assert (a + b)[1..] == a[1..] + b;
      JoinAppend(a[1..], b, sep);
    }
  }

  /** The middle of three texts is the slice between the ends of the others. */
  lemma Middle(a: string, b: string, c: string)
    ensures (a + b + c)[|a|..|a| + |b|] == b
  {
    assert forall i | 0 <= i < |b| :: (a + b + c)[|a| + i] == b[i];
  }

  /** A joined text starts with its first part. */
  lemma JoinHead(parts: seq<string>, sep: string)
    requires parts != []
    ensures |parts[0]| <= |Join(parts, sep)|
    ensures Join(parts, sep)[..|parts[0]|] == parts[0]
  {
    if |parts| > 1 {
      var j := Join(parts, sep);
      assert j == parts[0] + (sep + Join(parts[1..], sep));
    }
  }

  /** Lexicographic order on text by character code: `a <= b` for JavaScript strings. */
  predicate LexLe(a: string, b: string)
  {
    a == [] || (b != [] && (a[0] < b[0] || (a[0] == b[0] && LexLe(a[1..], b[1..]))))
  }

  /** Strict lexicographic order: `a < b`. */
  predicate LexLess(a: string, b: string)
  {
    b != [] && (a == [] || a[0] < b[0] || (a[0] == b[0] && LexLess(a[1..], b[1..])))
  }

  lemma {:induction false} LexLessIsLe(a: string, b: string)
    requires LexLess(a, b)
    ensures LexLe(a, b)
    decreases |a|
  {
    if a != [] && a[0] == b[0] && !(a[0] < b[0]) {
      LexLessIsLe(a[1..], b[1..]);
    }
  }

  lemma {:induction false} LexLeRefl(a: string)
    ensures LexLe(a, a)
    decreases |a|
  {
    if a != [] { LexLeRefl(a[1..]); }
  }

  /** Comparing two texts that start with pieces of the same length: a strictly
      smaller first piece decides, an equal one hands the decision to the rest. */
  lemma {:induction false} LexLeConcat(a1: string, r1: string, a2: string, r2: string)
    requires |a1| == |a2|
    requires LexLess(a1, a2) || (a1 == a2 && LexLe(r1, r2))
    ensures LexLe(a1 + r1, a2 + r2)
    decreases |a1|
  {
    if a1 == [] {
      assert a1 + r1 == r1 && a2 + r2 == r2;
    } else {
      assert (a1 + r1)[0] == a1[0] && (a2 + r2)[0] == a2[0];
      assert (a1 + r1)[1..] == a1[1..] + r1 && (a2 + r2)[1..] == a2[1..] + r2;
      if a1[0] < a2[0] {
      } else {
        assert a1[0] == a2[0];
        if a1 == a2 {
          LexLeConcat(a1[1..], r1, a2[1..], r2);
        } else {
          LexLeConcat(a1[1..], r1, a2[1..], r2);
        }
      }
    }
  }

  /** Same, for the strict order. */
  lemma {:induction false} LexLessConcat(a1: string, r1: string, a2: string, r2: string)
    requires |a1| == |a2|
    requires LexLess(a1, a2) || (a1 == a2 && LexLess(r1, r2))
    ensures LexLess(a1 + r1, a2 + r2)
    decreases |a1|
  {
    if a1 == [] {
      assert a1 + r1 == r1 && a2 + r2 == r2;
    } else {
      assert (a1 + r1)[0] == a1[0] && (a2 + r2)[0] == a2[0];
      assert (a1 + r1)[1..] == a1[1..] + r1 && (a2 + r2)[1..] == a2[1..] + r2;
      if a1[0] < a2[0] {
      } else {
        LexLessConcat(a1[1..], r1, a2[1..], r2);
      }
    }
  }

  /** Digit strings of the same length compare as their numbers do. */
  lemma {:induction false} DigitsOrder(m: nat, n: nat)
    requires m < n && |Digits(m)| == |Digits(n)|
    ensures LexLess(Digits(m), Digits(n))
    decreases n
  {
    if n >= 10 {
      var qm, qn := m / 10, n / 10;
      if m < 10 {
        DigitsNonEmpty(qn);
      }
      assert |Digits(qm)| == |Digits(qn)|;
      if qm < qn {
        DigitsOrder(qm, qn);
      } else {
        LastDigitOrder(m, n);
      }
      LexLessConcat(Digits(qm), [DigitChar(m % 10)], Digits(qn), [DigitChar(n % 10)]);
    }
  }

  lemma LastDigitOrder(m: nat, n: nat)
    requires m < n && m / 10 == n / 10
    ensures LexLess([DigitChar(m % 10)], [DigitChar(n % 10)])
  {
  }

  lemma DigitsNonEmpty(n: nat)
    ensures |Digits(n)| >= 1
  {
  }

  /** Number of `?` placeholders in a SQL text. */
  function Placeholders(s: string): nat
  {
    if s == [] then 0 else (if s[0] == '?' then 1 else 0) + Placeholders(s[1..])
  }

  lemma {:induction false} PlaceholdersAppend(a: string, b: string)
    ensures Placeholders(a + b) == Placeholders(a) + Placeholders(b)
    decreases |a|
  {
    if a == [] {
      assert a + b == b;
    } else {
      assert (a + b)[0] == a[0] && (a + b)[1..] == a[1..] + b;
      PlaceholdersAppend(a[1..], b);
    }
  }

  lemma {:induction false} NoPlaceholders(s: string)
    requires '?' !in s
    ensures Placeholders(s) == 0
    decreases |s|
  {
    if s != [] {
      assert s[0] in s;
      assert forall c | c in s[1..] :: c in s;
      NoPlaceholders(s[1..]);
    }
  }

  /** Text without a `?` followed by one `?` holds one placeholder. */
  lemma OnePlaceholder(a: string)
    requires '?' !in a
    ensures Placeholders(a + "?") == 1
  {
    NoPlaceholders(a);
    PlaceholdersAppend(a, "?");
  }
}
