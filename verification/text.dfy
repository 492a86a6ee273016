/**
  The few string operations of the .NET base library that the modelled code
  relies on: `char.IsWhiteSpace`, `string.IsNullOrWhiteSpace`,
  `string.Join`, `string.Split`, the decimal text of an integer, and
  `string.Format` given a format string and no arguments.
 */
module Text {
  import opened Exceptions

  /** `char.IsWhiteSpace`: the Unicode space separators, the line and
      paragraph separators, U+0009..U+000D, U+0085 and U+00A0. */
  predicate IsWhiteSpace(c: char) {
    || c == ' ' || ('\t' <= c <= '\r') || c == '\U{85}' || c == '\U{A0}'
    || c == '\U{1680}' || ('\U{2000}' <= c <= '\U{200A}') || c == '\U{2028}' || c == '\U{2029}'
    || c == '\U{202F}' || c == '\U{205F}' || c == '\U{3000}'
  }

  /** `string.IsNullOrWhiteSpace` on a non-null string. */
  predicate Blank(s: string) {
    forall i :: 0 <= i < |s| ==> IsWhiteSpace(s[i])
  }

  /** `string.Join(sep, parts)`. */
  function Join(sep: string, parts: seq<string>): (r: string)
    ensures |parts| == 0 ==> r == ""
    ensures |parts| == 1 ==> r == parts[0]
    ensures |r| == TotalLength(parts) + (if |parts| == 0 then 0 else (|parts| - 1) * |sep|)
  {
    if |parts| == 0 then ""
    else if |parts| == 1 then parts[0]
    else parts[0] + sep + Join(sep, parts[1..])
  }

  /** The sum of the lengths of `parts`. */
  function TotalLength(parts: seq<string>): nat {
    if |parts| == 0 then 0 else |parts[0]| + TotalLength(parts[1..])
  }

  /** The decimal digit of `d`. */
  function Digit(d: nat): (c: char)
    requires d < 10
    ensures '0' <= c <= '9' && c as int - '0' as int == d
  {
    ['0', '1', '2', '3', '4', '5', '6', '7', '8', '9'][d]
  }

  /** The value of a digit character. */
  function DigitValue(c: char): nat
    requires '0' <= c <= '9'
  {
    c as int - '0' as int
  }

  /** `n.ToString()` for a non-negative integer: its decimal digits, no
      leading zero. */
  function NatText(n: nat): (r: string)
    ensures |r| >= 1 && (|r| > 1 ==> r[0] != '0')
    ensures forall i :: 0 <= i < |r| ==> '0' <= r[i] <= '9'
    decreases n
  {
    if n < 10 then [Digit(n)] else NatText(n / 10) + [Digit(n % 10)]
  }

  /** The number a string of decimal digits denotes. */
  function DigitsValue(s: string): nat
    requires forall i :: 0 <= i < |s| ==> '0' <= s[i] <= '9'
  {
    if |s| == 0 then 0 else DigitsValue(s[..|s| - 1]) * 10 + DigitValue(s[|s| - 1])
  }

  /** `NatText` denotes its argument, so distinct numbers have distinct
      texts. */
  lemma {:induction false} NatTextValue(n: nat)
    ensures DigitsValue(NatText(n)) == n
    decreases n
  {
    if n >= 10 {
      var r := NatText(n);
      NatTextValue(n / 10);
      assert r[..|r| - 1] == NatText(n / 10);
    }
  }

  lemma NatTextInjective(a: nat, b: nat)
    ensures NatText(a) == NatText(b) ==> a == b
  {
    NatTextValue(a);
    NatTextValue(b);
  }

  /** `n.ToString()` for any integer: a minus sign before the digits of a
      negative number. */
  function IntText(n: int): (r: string)
    ensures n >= 0 ==> r == NatText(n)
    ensures n < 0 ==> |r| >= 2 && r[0] == '-' && r[1..] == NatText(-n)
  {
    if n < 0 then "-" + NatText(-n) else NatText(n)
  }

  /** Distinct integers have distinct texts. */
  lemma IntTextInjective(a: int, b: int)
    ensures IntText(a) == IntText(b) ==> a == b
  {
    if IntText(a) == IntText(b) {
      if a < 0 && b < 0 {
        NatTextInjective(-a, -b);
      } else if a >= 0 && b >= 0 {
        NatTextInjective(a, b);
      }
    }
  }

  /** `s.Split(c)`: the pieces between occurrences of `c`, empty pieces
      included. */
  function Split(s: string, c: char): (r: seq<string>)
    ensures |r| >= 1
    decreases |s|
  {
    if |s| == 0 then [""]
    else
      var rest := Split(s[1..], c);
      if s[0] == c then [""] + rest else [[s[0]] + rest[0]] + rest[1..]
  }

  /** A string without the separator is one piece. */
  lemma {:induction false} SplitWithout(s: string, c: char)
    requires c !in s
    ensures Split(s, c) == [s]
    decreases |s|
  {
    if |s| > 0 {
      SplitWithout(s[1..], c);
      assert [s[0]] + s[1..] == s;
    }
  }

  /** A separator-free piece followed by the separator splits off as the
      first piece. */
  lemma {:induction false} SplitAfterPiece(a: string, c: char, b: string)
    requires c !in a
    ensures Split(a + [c] + b, c) == [a] + Split(b, c)
    decreases |a|
  {
    var s := a + [c] + b;
    if |a| == 0 {
      assert s[1..] == b;
    } else {
      assert s[1..] == a[1..] + [c] + b;
      SplitAfterPiece(a[1..], c, b);
      assert [a[0]] + a[1..] == a;
    }
  }

  /** Splitting undoes joining when no part holds the separator. */
  lemma {:induction false} SplitJoin(parts: seq<string>, c: char)
    requires |parts| >= 1
    requires forall i :: 0 <= i < |parts| ==> c !in parts[i]
    ensures Split(Join([c], parts), c) == parts
    decreases |parts|
  {
    if |parts| == 1 {
      SplitWithout(parts[0], c);
    } else {
      SplitJoin(parts[1..], c);
      SplitAfterPiece(parts[0], c, Join([c], parts[1..]));
      assert [parts[0]] + parts[1..] == parts;
    }
  }

  /** Every part of a join sits right after the parts before it and their
      separators. */
  lemma {:induction false} JoinHasEveryPart(sep: string, parts: seq<string>, i: nat)
    requires i < |parts|
    ensures (if i == 0 then "" else Join(sep, parts[..i]) + sep) + parts[i] <= Join(sep, parts)
    decreases |parts|
  {
    if i > 0 {
      var tail := parts[1..];
      JoinHasEveryPart(sep, tail, i - 1);
      assert tail[..i - 1] == parts[1..i];
      if i > 1 {
        assert parts[..i][1..] == parts[1..i];
      }
    }
  }

  /** `string.Format(s)` with no arguments: `{{` and `}}` stand for one
      brace, and any other brace is a malformed format item, which raises
      FormatException. */
  function FormatNoArgs(s: string): (r: Result<string>)
    ensures r.Failure? ==> r.error == FormatException
    ensures r.Success? ==> |r.value| <= |s|
    decreases |s|
  {
    if |s| == 0 then Success("")
    else if s[0] == '{' || s[0] == '}' then
      if |s| >= 2 && s[1] == s[0] then
        var rest :- FormatNoArgs(s[2..]);
        Success([s[0]] + rest)
      else Failure(FormatException)
    else
      var rest :- FormatNoArgs(s[1..]);
      Success([s[0]] + rest)
  }

  predicate NoBraces(s: string) {
    '{' !in s && '}' !in s
  }

  /** A common head keeps a prefix a prefix. */
  lemma PrefixUnderHead(head: string, a: string, b: string)
    requires a <= b
    ensures head + a <= head + b
  {
    assert (head + b)[..|head + a|] == head + b[..|a|];
  }

  /** A format string without braces formats to itself. */
  lemma {:induction false} FormatWithoutBraces(s: string)
    requires NoBraces(s)
    ensures FormatNoArgs(s) == Success(s)
    decreases |s|
  {
    if |s| > 0 {
      FormatWithoutBraces(s[1..]);
      assert [s[0]] + s[1..] == s;
    }
  }

  /** A lone opening brace anywhere before the end makes formatting fail. */
  lemma {:induction false} FormatRejectsFormatItem(a: string, b: string)
    requires NoBraces(a) && (|b| == 0 || b[0] != '{')
    ensures FormatNoArgs(a + "{" + b).Failure?
    decreases |a|
  {
    if |a| > 0 {
      assert (a + "{" + b)[1..] == a[1..] + "{" + b;
      FormatRejectsFormatItem(a[1..], b);
    } else {
      assert a + "{" + b == ['{'] + b;
    }
  }

  /** A brace-free text before a format string does not change whether
      formatting fails. */
  lemma {:induction false} FormatAfterPlain(a: string, s: string)
    requires NoBraces(a)
    ensures FormatNoArgs(a + s).Failure? <==> FormatNoArgs(s).Failure?
    decreases |a|
  {
    if |a| == 0 {
      assert a + s == s;
    } else {
      var t := a + s;
      assert t[0] == a[0] && t[0] != '{' && t[0] != '}';
      assert t[1..] == a[1..] + s;
      FormatAfterPlain(a[1..], s);
    }
  }

  /** Nor does a brace-free text after it: such a text cannot close a
      brace the format string leaves open. */
  lemma {:induction false} FormatBeforePlain(s: string, b: string)
    requires NoBraces(b)
    ensures FormatNoArgs(s + b).Failure? <==> FormatNoArgs(s).Failure?
    decreases |s|
  {
    var t := s + b;
    if |s| == 0 {
      assert t == b;
      FormatWithoutBraces(b);
    } else if s[0] == '{' || s[0] == '}' {
      assert t[0] == s[0];
      if |s| >= 2 {
        assert t[1] == s[1];
        if s[1] == s[0] {
          assert t[2..] == s[2..] + b;
          FormatBeforePlain(s[2..], b);
        }
      } else if |b| > 0 {
        assert t[1] == b[0];
      }
    } else {
      assert t[0] == s[0];
      assert t[1..] == s[1..] + b;
      FormatBeforePlain(s[1..], b);
    }
  }

  /** The text of an integer holds no brace. */
  lemma IntTextNoBraces(n: int)
    ensures NoBraces(IntText(n))
  {
    var d := NatText(if n < 0 then -n else n);
    assert forall i :: 0 <= i < |d| ==> d[i] != '{' && d[i] != '}';
    if n < 0 {
      assert IntText(n) == "-" + d;
    }
  }
}
