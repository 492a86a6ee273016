/**
  Extensions.PrintForLogger and its JsonHelper.FormatJson: pretty-printing
  of the JSON text a serializer produced, for the log.  FormatJson walks
  the text once, tracking whether it is inside a string literal and how
  deep it is in brackets, and inserts line breaks and indentation around
  unquoted brackets and commas and a space after unquoted colons.

  The formatter is given here twice: as the loop of the source
  (`FormatJson`) and as a reference definition in which the state before
  each character is a function of the text before it (`Output`).
 */
module JsonFormat {
  import opened Exceptions

  /** INDENT_STRING. */
  const IndentUnit: string := "    "

  /** The indentation for nesting depth `n`: `n` copies of the unit, as
      the `Enumerable.Range(0, n).ForEach` of the source appends them. */
  function Indent(n: nat): (r: string)
    ensures |r| == |IndentUnit| * n
  {
    seq(|IndentUnit| * n, k requires 0 <= k < |IndentUnit| * n => IndentUnit[k % |IndentUnit|])
  }

  predicate Opener(c: char) {
    c == '{' || c == '['
  }

  predicate Closer(c: char) {
    c == '}' || c == ']'
  }

  /** The change of depth a character makes: unquoted brackets only. */
  function Delta(quoted: bool, c: char): int {
    if quoted then 0 else if Opener(c) then 1 else if Closer(c) then -1 else 0
  }

  /** The layout written before character `c` at depth `d`: a line break
      and the closer's indentation before an unquoted closer. */
  function LayoutBefore(quoted: bool, d: int, c: char, nl: string): string {
    if !quoted && Closer(c) && d >= 1 then nl + Indent(d - 1) else ""
  }

  /** The layout written after character `c` at depth `d`: a line break
      and the new indentation after an unquoted opener or comma, a space
      after an unquoted colon. */
  function LayoutAfter(quoted: bool, d: int, c: char, nl: string): string {
    if quoted || d < 0 then ""
    else if Opener(c) then nl + Indent(d + 1)
    else if c == ',' then nl + Indent(d)
    else if c == ':' then " "
    else ""
  }

  /** The number of backslashes immediately before position `i`. */
  function BackslashesBefore(s: string, i: nat): (r: nat)
    requires i <= |s|
    ensures r <= i
    ensures forall k :: i - r <= k < i ==> s[k] == '\\'
    ensures r < i ==> s[i - r - 1] != '\\'
  {
    if i == 0 || s[i - 1] != '\\' then 0 else 1 + BackslashesBefore(s, i - 1)
  }

  /** A quote preceded by an even number of backslashes opens or closes a
      string literal. */
  predicate Toggles(s: string, i: nat)
    requires i < |s|
  {
    s[i] == '"' && BackslashesBefore(s, i) % 2 == 0
  }

  /** Whether position `i` lies inside a string literal. */
  function QuotedAt(s: string, i: nat): bool
    requires i <= |s|
  {
    if i == 0 then false else QuotedAt(s, i - 1) != Toggles(s, i - 1)
  }

  /** The bracket depth before position `i`: unquoted openers minus
      unquoted closers. */
  function DepthAt(s: string, i: nat): int
    requires i <= |s|
  {
    if i == 0 then 0 else DepthAt(s, i - 1) + Delta(QuotedAt(s, i - 1), s[i - 1])
  }

  /** An unquoted closer at `i` with no opener left to match. */
  predicate Unmatched(s: string, i: nat)
    requires i < |s|
  {
    !QuotedAt(s, i) && Closer(s[i]) && DepthAt(s, i) <= 0
  }

  /** Some closer before `n` is unmatched. */
  predicate Underflows(s: string, n: nat)
    requires n <= |s|
  {
    n > 0 && (Underflows(s, n - 1) || Unmatched(s, n - 1))
  }

  /** `Underflows` names exactly the prefixes that hold an unmatched
      closer. */
  lemma {:induction false} UnderflowsIff(s: string, n: nat)
    requires n <= |s|
    ensures Underflows(s, n) <==> exists i :: 0 <= i < n && Unmatched(s, i)
    decreases n
  {
    if n > 0 {
      UnderflowsIff(s, n - 1);
    }
  }

  /** An underflow stays an underflow as the prefix grows. */
  lemma {:induction false} UnderflowPersists(s: string, n: nat, m: nat)
    requires n <= m <= |s|
    ensures Underflows(s, n) ==> Underflows(s, m)
    decreases m - n
  {
    if n < m {
      UnderflowPersists(s, n + 1, m);
    }
  }

  /** Character `i` with the layout around it. */
  function Piece(s: string, i: nat, nl: string): string
    requires i < |s|
  {
    var q, d := QuotedAt(s, i), DepthAt(s, i);
    LayoutBefore(q, d, s[i], nl) + [s[i]] + LayoutAfter(q, d, s[i], nl)
  }

  /** The formatted text of the first `n` characters. */
  function Output(s: string, n: nat, nl: string): string
    requires n <= |s|
  {
    if n == 0 then "" else Output(s, n - 1, nl) + Piece(s, n - 1, nl)
  }

  /** Text made only of line-break characters and spaces. */
  predicate Layout(t: string, nl: string) {
    forall k :: 0 <= k < |t| ==> t[k] == ' ' || t[k] in nl
  }

  /** A line break followed by indentation is layout. */
  lemma BreakIsLayout(nl: string, n: nat)
    ensures Layout(nl + Indent(n), nl)
  {
    var t := nl + Indent(n);
    forall k | 0 <= k < |t|
      ensures t[k] == ' ' || t[k] in nl
    {
      if k < |nl| {
        assert t[k] == nl[k];
      } else {
        assert t[k] == Indent(n)[k - |nl|];
      }
    }
  }

  /** The formatter inserts nothing but layout, nothing inside string
      literals, and nothing around characters other than brackets,
      commas and colons. */
  lemma LayoutOnly(quoted: bool, d: int, c: char, nl: string)
    ensures Layout(LayoutBefore(quoted, d, c, nl), nl) && Layout(LayoutAfter(quoted, d, c, nl), nl)
    ensures quoted ==> LayoutBefore(quoted, d, c, nl) == "" && LayoutAfter(quoted, d, c, nl) == ""
    ensures !Opener(c) && !Closer(c) && c != ',' && c != ':' ==>
              LayoutBefore(quoted, d, c, nl) == "" && LayoutAfter(quoted, d, c, nl) == ""
  {
    if d >= 1 {
      BreakIsLayout(nl, d - 1);
    }
    if d >= 0 {
      BreakIsLayout(nl, d);
      BreakIsLayout(nl, d + 1);
    }
    assert Layout(" ", nl);
  }

  /** The output grows with the input: formatting a longer prefix only
      appends, so every character keeps its place and order. */
  lemma {:induction false} OutputExtends(s: string, m: nat, n: nat, nl: string)
    requires m <= n <= |s|
    ensures Output(s, m, nl) <= Output(s, n, nl)
    decreases n
  {
    if m < n {
      OutputExtends(s, m, n - 1, nl);
      var shorter, piece := Output(s, n - 1, nl), Piece(s, n - 1, nl);
      assert Output(s, n, nl) == shorter + piece;
      assert shorter <= shorter + piece;
    }
  }

  /** The loop's escape check: walking back over the backslashes before a
      quote counts them. */
  lemma {:induction false} BackslashRun(s: string, i: nat, index: nat)
    requires index <= i <= |s|
    requires forall k :: index <= k < i ==> s[k] == '\\'
    requires index == 0 || s[index - 1] != '\\'
    ensures BackslashesBefore(s, i) == i - index
    decreases i
  {
    if i > index {
      BackslashRun(s, i - 1, index);
    }
  }

  /** The escape check of the quote case: walks back over the backslashes
      before position `i`, flipping `escaped` at each. */
  method EscapedAt(s: string, i: nat) returns (escaped: bool)
    requires i <= |s|
    ensures escaped <==> BackslashesBefore(s, i) % 2 == 1
  {
    escaped := false;
    var index := i;
    while index > 0 && s[index - 1] == '\\'
      invariant 0 <= index <= i
      invariant forall k :: index <= k < i ==> s[k] == '\\'
      invariant escaped == ((i - index) % 2 == 1)
    {
      index := index - 1;
      escaped := !escaped;
    }
    BackslashRun(s, i, index);
  }

  /** One pass of the loop of FormatJson: appends character `i` of `s` with
      the layout around it to `sb` and advances the quoting state and the
      indentation; `ok` is false where `Enumerable.Range` would raise. */
  method FormatChar(s: string, i: nat, nl: string, quoted: bool, indent: int, sb: string)
    returns (ok: bool, quoted': bool, indent': int, sb': string)
    requires i < |s| && indent >= 0
    ensures ok <==> !(!quoted && Closer(s[i]) && indent == 0)
    ensures ok ==> quoted' == (quoted != Toggles(s, i)) && indent' == indent + Delta(quoted, s[i]) && indent' >= 0
    ensures ok ==> sb' == sb + (LayoutBefore(quoted, indent, s[i], nl) + [s[i]] + LayoutAfter(quoted, indent, s[i], nl))
  {
    ok, quoted', indent', sb' := true, quoted, indent, sb;
    var ch := s[i];
    if ch == '{' || ch == '[' {
      sb' := sb' + [ch];
      if !quoted' {
        indent' := indent' + 1;
        sb' := sb' + nl + Indent(indent');
      }
    } else if ch == '}' || ch == ']' {
      if !quoted' {
        indent' := indent' - 1;
        if indent' < 0 {
          return false, quoted', indent', sb';
        }
        sb' := sb' + nl + Indent(indent');
      }
      sb' := sb' + [ch];
    } else if ch == '"' {
      sb' := sb' + [ch];
      var escaped := EscapedAt(s, i);
      if !escaped {
        quoted' := !quoted';
      }
    } else if ch == ',' {
      sb' := sb' + [ch];
      if !quoted' {
        sb' := sb' + nl + Indent(indent');
      }
    } else if ch == ':' {
      sb' := sb' + [ch];
      if !quoted' {
        sb' := sb' + " ";
      }
    } else {
      sb' := sb' + [ch];
    }
  }

  /** `FormatJson(str)`; `nl` is the line terminator AppendLine writes.  An
      unquoted closer with nothing open makes `Enumerable.Range` get a
      negative count, which raises ArgumentOutOfRangeException. */
  method FormatJson(s: string, nl: string) returns (r: Result<string>)
    ensures r.Failure? <==> Underflows(s, |s|)
    ensures r.Failure? ==> r.error == ArgumentOutOfRangeException
    ensures r.Success? ==> r.value == Output(s, |s|, nl)
  {
    var indent := 0;
    var quoted := false;
    var sb := "";
    var i := 0;
    while i < |s|
      invariant 0 <= i <= |s|
      invariant quoted == QuotedAt(s, i) && indent == DepthAt(s, i) && indent >= 0
      invariant !Underflows(s, i)
      invariant sb == Output(s, i, nl)
    {
      var ok;
      ok, quoted, indent, sb := FormatChar(s, i, nl, quoted, indent, sb);
      if !ok {
        UnderflowPersists(s, i + 1, |s|);
        return Failure(ArgumentOutOfRangeException);
      }
      i := i + 1;
    }
    return Success(sb);
  }

  /** The text logged when serializing or formatting raises. */
  const Fallback: string := "PrintForLogger throw an exception."

  /** `PrintForLogger(item)`: the formatted serialization of the item and a
      line break; any exception of the serializer or the formatter is
      swallowed and the fallback line written instead.  `serialize` stands
      for JavaScriptSerializer.Serialize. */
  method PrintForLogger<T>(item: T, serialize: T -> Result<string>, nl: string) returns (r: string)
    ensures serialize(item).Failure? ==> r == Fallback + nl
    ensures serialize(item).Success? ==>
              var j := serialize(item).value;
              r == if Underflows(j, |j|) then Fallback + nl else Output(j, |j|, nl) + nl
  {
    var json := serialize(item);
    if json.Failure? {
      return Fallback + nl;
    }
    var pretty := FormatJson(json.value, nl);
    if pretty.Failure? {
      return Fallback + nl;
    }
    return pretty.value + nl;
  }

  /** A small array: the bracket opens a line at depth one, the comma
      starts the next element's line, and the closing bracket returns to
      depth zero. */
  lemma SmallArray()
    ensures Output("[1,2]", 5, "\n") == "[\n    1,\n    2\n]"
  {
    var s := "[1,2]";
    assert !QuotedAt(s, 1) && !QuotedAt(s, 2) && !QuotedAt(s, 4);
    assert DepthAt(s, 2) == 1 && DepthAt(s, 4) == 1;
    assert Output(s, 2, "\n") == "[\n    1";
  }

  /** An escaped quote does not end a string: the comma after it gets no
      line break. */
  lemma EscapedQuoteStaysQuoted()
    ensures Output("\"\\\",\"", 5, "\n") == "\"\\\",\""
  {
    var s := "\"\\\",\"";
    assert BackslashesBefore(s, 2) == 1;
    assert QuotedAt(s, 1) && QuotedAt(s, 2) && QuotedAt(s, 3) && QuotedAt(s, 4);
  }
}
