/** Normalising one line of Markdown prose: leading space dropped, runs of spaces
  * collapsed, `*` emphasis written with `_`, and what is between backticks left alone.
  */
module MarkdownLine {

  predicate IsWhite(c: char) {
    || '\t' <= c <= '\r' || c == ' ' || c == '\U{85}' || c == '\U{A0}' || c == '\U{1680}'
    || '\U{2000}' <= c <= '\U{200A}' || c == '\U{2028}' || c == '\U{2029}' || c == '\U{202F}'
    || c == '\U{205F}' || c == '\U{3000}'
  }

  function TrimStart(s: string): (r: string)
    ensures r != "" ==> !IsWhite(r[0])
  {
    if s != "" && IsWhite(s[0]) then TrimStart(s[1..]) else s
  }

  function TrimEnd(s: string): string {
    if s != "" && IsWhite(s[|s| - 1]) then TrimEnd(s[..|s| - 1]) else s
  }

  lemma {:induction false} TrimStartIsSuffix(s: string)
    ensures |TrimStart(s)| <= |s| && TrimStart(s) == s[|s| - |TrimStart(s)|..]
  {
    if s != "" && IsWhite(s[0]) { TrimStartIsSuffix(s[1..]); }
  }

  lemma {:induction false} TrimEndLeaves(s: string)
    requires s != "" && !IsWhite(s[0])
    ensures TrimEnd(s) != ""
    decreases |s|
  {
    if IsWhite(s[|s| - 1]) { TrimEndLeaves(s[..|s| - 1]); }
  }

  function NextCode(c: char, inCode: bool): bool {
    if c == '`' then !inCode else inCode
  }

  /** What a character leaves; `inCode`: an odd number of backticks before; `spaced`: a
    * space just before.
    */
  function Kept(c: char, inCode: bool, spaced: bool): string {
    if c == ' ' && !inCode && spaced then "" else [c]
  }

  function Collapsed(s: string, inCode: bool, spaced: bool): string {
    if s == "" then ""
    else Kept(s[0], inCode, spaced) + Collapsed(s[1..], NextCode(s[0], inCode), s[0] == ' ' && !inCode)
  }

  /** What the next one or two characters turn into. */
  function Marked(s: string, inCode: bool): (r: string)
    requires s != ""
    ensures 1 <= |r| <= |s|
  {
    if s[0] == '*' && !inCode then (if |s| > 1 && s[1] == '*' then "**" else "_") else [s[0]]
  }

  function Emphasised(s: string, inCode: bool): string {
    if s == "" then ""
    else var mark := Marked(s, inCode); mark + Emphasised(s[|mark|..], NextCode(s[0], inCode))
  }

  lemma Assoc(a: string, b: string, c: string)
    ensures a + (b + c) == (a + b) + c
  {}

  method CollapseSpaces(s: string) returns (result: string)
    ensures result == Collapsed(s, false, false)
  {
    result := "";
    var inCode, spaced := false, false;
    for i := 0 to |s|
      invariant result + Collapsed(s[i..], inCode, spaced) == Collapsed(s, false, false)
    {
      var c := s[i];
      CollapsedNext(result, s[i..], inCode, spaced);
      assert s[i..][1..] == s[i + 1..];
      if c == '`' {
        inCode := !inCode;
        result := result + [c];
        spaced := false;
      } else if c == ' ' && !inCode {
        if !spaced { result := result + [' ']; } else { assert result + "" == result; }
        spaced := true;
      } else {
        result := result + [c];
        spaced := false;
      }
    }
  }

  lemma CollapsedNext(result: string, s: string, inCode: bool, spaced: bool)
    requires s != ""
    ensures result + Collapsed(s, inCode, spaced) == result + Kept(s[0], inCode, spaced)
                                                     + Collapsed(s[1..], NextCode(s[0], inCode), s[0] == ' ' && !inCode)
  {
    Assoc(result, Kept(s[0], inCode, spaced), Collapsed(s[1..], NextCode(s[0], inCode), s[0] == ' ' && !inCode));
  }

  lemma EmphasisedNext(result: string, s: string, inCode: bool)
    requires s != ""
    ensures var mark := Marked(s, inCode);
      result + Emphasised(s, inCode) == result + mark + Emphasised(s[|mark|..], NextCode(s[0], inCode))
  {
    var mark := Marked(s, inCode);
    Assoc(result, mark, Emphasised(s[|mark|..], NextCode(s[0], inCode)));
  }

  method ReplaceEmphasis(s: string) returns (result: string)
    ensures result == Emphasised(s, false)
  {
    result := "";
    var i, inCode := 0, false;
    while i < |s|
      invariant 0 <= i <= |s|
      invariant result + Emphasised(s[i..], inCode) == Emphasised(s, false)
    {
      ghost var rest := s[i..];
      EmphasisedNext(result, rest, inCode);
      assert rest[1..] == s[i + 1..];
      if s[i] == '`' {
        inCode := !inCode;
        result := result + [s[i]];
        i := i + 1;
      } else if !inCode && s[i] == '*' {
        if i + 1 < |s| && s[i + 1] == '*' {
          assert rest[1] == '*' && rest[2..] == s[i + 2..];
          result := result + "**";
          i := i + 2;
        } else {
          assert |rest| > 1 ==> rest[1] == s[i + 1];
          result := result + "_";
          i := i + 1;
        }
      } else {
        result := result + [s[i]];
        i := i + 1;
      }
    }
  }

  function Normalized(line: string): string {
    Emphasised(Collapsed(TrimStart(line), false, false), false)
  }

  method NormalizeLine(line: string) returns (result: string)
    ensures result == Normalized(line)
  {
    var collapsed := CollapseSpaces(TrimStart(line));
    result := ReplaceEmphasis(collapsed);
  }

  // ---------------------------------------------------------------------
  // Normalising twice
  // ---------------------------------------------------------------------

  /** Outside code no two spaces follow each other. */
  predicate Neat(s: string, inCode: bool, spaced: bool) {
    s == "" ||
    if s[0] == '`' then Neat(s[1..], !inCode, false)
    else if s[0] == ' ' && !inCode then !spaced && Neat(s[1..], inCode, true)
    else Neat(s[1..], inCode, false)
  }

  /** Outside code stars come in pairs. */
  predicate Paired(s: string, inCode: bool) {
    s == "" ||
    if s[0] == '`' then Paired(s[1..], !inCode)
    else if s[0] == '*' && !inCode then |s| > 1 && s[1] == '*' && Paired(s[2..], inCode)
    else Paired(s[1..], inCode)
  }

  lemma {:induction false} CollapsedIsNeat(s: string, inCode: bool, spaced: bool)
    ensures Neat(Collapsed(s, inCode, spaced), inCode, spaced)
  {
    if s != "" {
      var code, next := NextCode(s[0], inCode), s[0] == ' ' && !inCode;
      var rest := Collapsed(s[1..], code, next);
      CollapsedIsNeat(s[1..], code, next);
      if Kept(s[0], inCode, spaced) == "" {
        assert "" + rest == rest;
      } else {
        assert ([s[0]] + rest)[0] == s[0] && ([s[0]] + rest)[1..] == rest;
      }
    }
  }

  /** Collapsing leaves what is neat alone, and shortens the rest. */
  lemma {:induction false} CollapsedIff(s: string, inCode: bool, spaced: bool)
    ensures |Collapsed(s, inCode, spaced)| <= |s|
    ensures |Collapsed(s, inCode, spaced)| == |s| <==> Neat(s, inCode, spaced)
    ensures Neat(s, inCode, spaced) ==> Collapsed(s, inCode, spaced) == s
  {
    if s != "" {
      assert s == [s[0]] + s[1..];
      if s[0] == '`' { CollapsedIff(s[1..], !inCode, false); }
      else { CollapsedIff(s[1..], inCode, s[0] == ' ' && !inCode); }
    }
  }

  lemma {:induction false} EmphasisedIsPaired(s: string, inCode: bool)
    ensures Paired(Emphasised(s, inCode), inCode) && |Emphasised(s, inCode)| == |s|
    decreases |s|
  {
    if s != "" {
      var mark, r := Marked(s, inCode), Emphasised(s, inCode);
      EmphasisedIsPaired(s[|mark|..], NextCode(s[0], inCode));
      assert r[0] == mark[0] && r[|mark|..] == Emphasised(s[|mark|..], NextCode(s[0], inCode));
      if |mark| == 2 { assert r[1] == '*'; }
    }
  }

  lemma {:induction false} EmphasisedIff(s: string, inCode: bool)
    ensures Emphasised(s, inCode) == s <==> Paired(s, inCode)
    decreases |s|
  {
    if s != "" {
      assert s == [s[0]] + s[1..];
      if s[0] == '`' { EmphasisedIff(s[1..], !inCode); }
      else if s[0] == '*' && !inCode {
        if |s| > 1 && s[1] == '*' {
          assert s == "**" + s[2..];
          EmphasisedIff(s[2..], inCode);
        }
      } else { EmphasisedIff(s[1..], inCode); }
    }
  }

  lemma {:induction false} EmphasisedStaysNeat(s: string, inCode: bool, spaced: bool)
    requires Neat(s, inCode, spaced)
    ensures Neat(Emphasised(s, inCode), inCode, spaced)
    decreases |s|
  {
    if s != "" {
      var mark, r := Marked(s, inCode), Emphasised(s, inCode);
      if |mark| == 2 {
        assert Neat(s[1..], inCode, false) && s[1..][0] == '*' && s[1..][1..] == s[2..];
        EmphasisedStaysNeat(s[2..], inCode, false);
        assert r[1..][0] == '*' && r[1..][1..] == Emphasised(s[2..], inCode);
      } else {
        EmphasisedStaysNeat(s[1..], NextCode(s[0], inCode), s[0] == ' ' && !inCode);
        assert r[0] == mark[0] && r[1..] == Emphasised(s[1..], NextCode(s[0], inCode));
      }
    }
  }

  lemma FirstNotWhite(s: string)
    requires s != "" && !IsWhite(s[0])
    ensures var r := Emphasised(Collapsed(s, false, false), false); r != "" && !IsWhite(r[0])
  {
    assert Collapsed(s, false, false)[0] == s[0];
  }

  /** A normalised line is neat, its stars paired, and has nothing to trim. */
  lemma NormalizedIsNormal(line: string)
    ensures Neat(Normalized(line), false, false) && Paired(Normalized(line), false)
    ensures TrimStart(Normalized(line)) == Normalized(line)
    ensures Normalized(line) == "" <==> TrimStart(line) == ""
  {
    var s := TrimStart(line);
    CollapsedIsNeat(s, false, false);
    EmphasisedStaysNeat(Collapsed(s, false, false), false, false);
    EmphasisedIsPaired(Collapsed(s, false, false), false);
    if s != "" { FirstNotWhite(s); }
  }

  lemma NormalizedTwice(line: string)
    ensures Normalized(Normalized(line)) == Normalized(line)
  {
    var once := Normalized(line);
    NormalizedIsNormal(line);
    CollapsedIff(once, false, false);
    EmphasisedIff(once, false);
  }

  // ---------------------------------------------------------------------
  // What is kept
  // ---------------------------------------------------------------------

  /** The characters, each with whether it is code and whether a space that is not code
    * comes just before, with `*` and `_` outside code taken for one. How many such spaces
    * there are is not told.
    */
  function Ink(s: string, inCode: bool, spaced: bool): seq<(char, bool, bool)> {
    if s == "" then []
    else if s[0] == '`' then [('`', inCode, spaced)] + Ink(s[1..], !inCode, false)
    else if inCode then [(s[0], true, spaced)] + Ink(s[1..], true, false)
    else if s[0] == ' ' then Ink(s[1..], false, true)
    else [(if s[0] == '*' then '_' else s[0], false, spaced)] + Ink(s[1..], false, false)
  }

  lemma {:induction false} CollapsedKeepsInk(s: string, inCode: bool, spaced: bool)
    requires inCode ==> !spaced
    ensures Ink(Collapsed(s, inCode, spaced), inCode, spaced) == Ink(s, inCode, spaced)
  {
    if s != "" {
      var code, next := NextCode(s[0], inCode), s[0] == ' ' && !inCode;
      var rest := Collapsed(s[1..], code, next);
      CollapsedKeepsInk(s[1..], code, next);
      if Kept(s[0], inCode, spaced) == "" {
        assert "" + rest == rest;
      } else {
        assert ([s[0]] + rest)[0] == s[0] && ([s[0]] + rest)[1..] == rest;
      }
    }
  }

  lemma {:induction false} EmphasisedKeepsInk(s: string, inCode: bool, spaced: bool)
    ensures Ink(Emphasised(s, inCode), inCode, spaced) == Ink(s, inCode, spaced)
    decreases |s|
  {
    if s != "" {
      var mark, r := Marked(s, inCode), Emphasised(s, inCode);
      EmphasisedKeepsInk(s[|mark|..], NextCode(s[0], inCode), s[0] == ' ' && !inCode);
      if |mark| == 2 {
        assert s[1..][0] == '*' && s[1..][1..] == s[2..];
        assert r[1..][0] == '*' && r[1..][1..] == Emphasised(s[2..], inCode);
      } else {
        assert r[0] == mark[0] && r[1..] == Emphasised(s[1..], NextCode(s[0], inCode));
      }
    }
  }

  /** From its first character on, a line keeps all it has between backticks, all else but
    * which of `*` and `_` was written, and where spaces are, if not how many.
    */
  lemma NormalizedKeepsInk(line: string)
    ensures Ink(Normalized(line), false, false) == Ink(TrimStart(line), false, false)
  {
    CollapsedKeepsInk(TrimStart(line), false, false);
    EmphasisedKeepsInk(Collapsed(TrimStart(line), false, false), false, false);
  }

  /** A line is left as it is exactly when it has nothing to trim, is neat, and has its
    * stars in pairs.
    */
  lemma UnchangedIff(line: string)
    ensures Normalized(line) == line <==> TrimStart(line) == line && Neat(line, false, false) && Paired(line, false)
  {
    NormalizedIsNormal(line);
    RewrittenIff(line, false);
  }

  // ---------------------------------------------------------------------
  // A code span on a line
  // ---------------------------------------------------------------------

  /** Whether what follows `s` has an odd number of backticks before it. */
  function Parity(s: string, inCode: bool): bool {
    if s == "" then inCode else Parity(s[1..], NextCode(s[0], inCode))
  }

  /** What becomes of a stretch of a line. */
  function Rewritten(s: string, inCode: bool): string {
    Emphasised(Collapsed(s, inCode, false), inCode)
  }

  lemma RewrittenIff(s: string, inCode: bool)
    ensures Rewritten(s, inCode) == s <==> Neat(s, inCode, false) && Paired(s, inCode)
  {
    var collapsed := Collapsed(s, inCode, false);
    CollapsedIff(s, inCode, false);
    EmphasisedIsPaired(collapsed, inCode);
    EmphasisedIff(s, inCode);
  }

  /** A backtick on one side of the place. */
  predicate CutAt(a: string, b: string) {
    (b != "" && b[0] == '`') || (a != "" && a[|a| - 1] == '`')
  }

  /** The place is cut just as well from further on, up to the place itself. */
  lemma CutNext(a: string, b: string, n: nat)
    requires CutAt(a, b) && n <= |a|
    ensures CutAt(a[n..], b) || (a[n..] == "" && a[n..] + b == b)
    ensures (a + b)[n..] == a[n..] + b
  {}

  lemma {:induction false} CollapsedCut(a: string, b: string, inCode: bool, spaced: bool)
    requires CutAt(a, b)
    ensures Collapsed(a + b, inCode, spaced) == Collapsed(a, inCode, spaced) + Collapsed(b, Parity(a, inCode), false)
    decreases |a|
  {
    if a == "" {
      assert a + b == b;
    } else {
      var c, rest := a[0], a[1..];
      var code, next, tail := NextCode(c, inCode), c == ' ' && !inCode, Collapsed(b, Parity(a, inCode), false);
      assert (a + b)[0] == c;
      CutNext(a, b, 1);
      assert Collapsed(rest + b, code, next) == Collapsed(rest, code, next) + tail by {
        if CutAt(rest, b) { CollapsedCut(rest, b, code, next); } else { assert "" + tail == tail; }
      }
      Assoc(Kept(c, inCode, spaced), Collapsed(rest, code, next), tail);
    }
  }

  lemma MarkedCut(a: string, b: string, inCode: bool)
    requires a != "" && CutAt(a, b)
    ensures Marked(a + b, inCode) == Marked(a, inCode)
    ensures Parity(a, inCode) == Parity(a[|Marked(a, inCode)|..], NextCode(a[0], inCode))
  {
    assert (a + b)[0] == a[0] && (|a| > 1 ==> (a + b)[1] == a[1]);
    assert |a| == 1 && b != "" ==> (a + b)[1] == b[0];
    if |Marked(a, inCode)| == 2 { assert a[1..][0] == '*' && a[1..][1..] == a[2..]; }
  }

  lemma FirstMark(s: string, mark: string, rest: string, inCode: bool)
    requires s != "" && mark == Marked(s, inCode) && rest == s[|mark|..]
    ensures Emphasised(s, inCode) == mark + Emphasised(rest, NextCode(s[0], inCode))
  {}

  lemma {:induction false} EmphasisedCut(a: string, b: string, inCode: bool)
    requires CutAt(a, b)
    ensures Emphasised(a + b, inCode) == Emphasised(a, inCode) + Emphasised(b, Parity(a, inCode))
    decreases |a|
  {
    if a == "" {
      assert a + b == b;
    } else {
      var mark := Marked(a, inCode);
      var code, rest, tail := NextCode(a[0], inCode), a[|mark|..], Emphasised(b, Parity(a, inCode));
      MarkedCut(a, b, inCode);
      CutNext(a, b, |mark|);
      assert Emphasised(rest + b, code) == Emphasised(rest, code) + tail by {
        if CutAt(rest, b) { EmphasisedCut(rest, b, code); } else { assert "" + tail == tail; }
      }
      FirstMark(a + b, mark, rest + b, inCode);
      Assoc(mark, Emphasised(rest, code), tail);
    }
  }

  lemma {:induction false} CollapsedParity(s: string, inCode: bool, spaced: bool)
    ensures Parity(Collapsed(s, inCode, spaced), inCode) == Parity(s, inCode)
  {
    if s != "" {
      var code, next := NextCode(s[0], inCode), s[0] == ' ' && !inCode;
      var rest := Collapsed(s[1..], code, next);
      CollapsedParity(s[1..], code, next);
      if Kept(s[0], inCode, spaced) == "" {
        assert "" + rest == rest;
      } else {
        assert ([s[0]] + rest)[0] == s[0] && ([s[0]] + rest)[1..] == rest;
      }
    }
  }

  /** Where collapsing leaves a backtick first or last, there was one. */
  lemma {:induction false} CollapsedEnds(s: string, inCode: bool, spaced: bool)
    ensures s != "" && s[0] == '`' ==> Collapsed(s, inCode, spaced) != "" && Collapsed(s, inCode, spaced)[0] == '`'
    ensures s != "" && s[|s| - 1] == '`' ==>
      var r := Collapsed(s, inCode, spaced); r != "" && r[|r| - 1] == '`'
  {
    if s != "" {
      var code, next := NextCode(s[0], inCode), s[0] == ' ' && !inCode;
      var first, rest := Kept(s[0], inCode, spaced), Collapsed(s[1..], code, next);
      CollapsedEnds(s[1..], code, next);
      assert first != "" ==> (first + rest)[0] == s[0];
      assert rest != "" ==> (first + rest)[|first + rest| - 1] == rest[|rest| - 1];
      assert rest == "" ==> first + rest == first;
      if |s| > 1 { assert s[1..][|s| - 2] == s[|s| - 1]; }
    }
  }

  /** At a backtick a line falls into two stretches, each rewritten by itself, with the
    * parity of the backticks before it.
    */
  lemma RewrittenCut(a: string, b: string, inCode: bool)
    requires CutAt(a, b)
    ensures Rewritten(a + b, inCode) == Rewritten(a, inCode) + Rewritten(b, Parity(a, inCode))
  {
    CollapsedCut(a, b, inCode, false);
    CollapsedEnds(a, inCode, false);
    CollapsedEnds(b, Parity(a, inCode), false);
    CollapsedParity(a, inCode, false);
    EmphasisedCut(Collapsed(a, inCode, false), Collapsed(b, Parity(a, inCode), false), inCode);
  }

  /** Wherever a code span stands in a line, and whatever it holds: its stretch of the
    * line is kept as written exactly when it is neat and has its stars in pairs, both
    * told by the parity of all backticks before them.
    */
  lemma SpanKeptIff(line: string, before: string, span: string, after: string)
    requires TrimStart(line) == before + (span + after)
    requires span != "" && span[0] == '`' && span[|span| - 1] == '`'
    ensures var code := Parity(before, false);
      && Normalized(line) == Rewritten(before, false) + (Rewritten(span, code) + Rewritten(after, Parity(span, code)))
      && (Rewritten(span, code) == span <==> Neat(span, code, false) && Paired(span, code))
  {
    var code := Parity(before, false);
    assert (span + after)[0] == '`';
    RewrittenCut(before, span + after, false);
    RewrittenCut(span, after, code);
    RewrittenIff(span, code);
  }

  function Fence(n: nat): (r: string)
    ensures |r| == n && forall i :: 0 <= i < n ==> r[i] == '`'
  {
    if n == 0 then "" else "`" + Fence(n - 1)
  }

  function Flipped(n: nat, inCode: bool): bool {
    if n % 2 == 1 then !inCode else inCode
  }

  lemma {:induction false} FenceKept(n: nat, inCode: bool)
    ensures Parity(Fence(n), inCode) == Flipped(n, inCode) && Rewritten(Fence(n), inCode) == Fence(n)
  {
    if n > 0 {
      var rest := Fence(n - 1);
      assert Fence(n)[1..] == rest;
      FenceKept(n - 1, !inCode);
      RewrittenIff(rest, !inCode);
      RewrittenIff(Fence(n), inCode);
    }
  }

  /** Text without a backtick is left alone in code. */
  lemma {:induction false} CodeKept(body: string, inCode: bool, spaced: bool)
    requires '`' !in body
    ensures Parity(body, inCode) == inCode
    ensures inCode ==> Neat(body, true, spaced) && Paired(body, true)
  {
    if body != "" {
      assert body[0] in body;
      CodeKept(body[1..], inCode, false);
    }
  }

  /** Where a span's text holds no backtick: it is kept as written exactly when an odd
    * number of backticks comes before the text, or it is neat and paired as prose.
    */
  lemma PlainSpanKeptIff(n: nat, body: string, inCode: bool)
    requires n > 0 && '`' !in body
    ensures var span := Fence(n) + (body + Fence(n));
      Rewritten(span, inCode) == span <==> Flipped(n, inCode) || (Neat(body, false, false) && Paired(body, false))
  {
    var fence, code := Fence(n), Flipped(n, inCode);
    FenceKept(n, inCode);
    FenceKept(n, code);
    CodeKept(body, code, false);
    RewrittenCut(fence, body + fence, inCode);
    RewrittenCut(body, fence, code);
    RewrittenIff(body, code);
    SameMiddle(fence, Rewritten(body, code), body);
  }

  lemma SameMiddle(fence: string, a: string, b: string)
    ensures fence + (a + fence) == fence + (b + fence) <==> a == b
  {
    var left, right := fence + (a + fence), fence + (b + fence);
    if left == right {
      assert |a| == |b|;
      assert left[|fence|..|fence| + |a|] == a && right[|fence|..|fence| + |b|] == b;
    }
  }

  /** Neither an even fence nor an odd one keeps a span by itself: a backtick in the text
    * turns the parity over.
    */
  lemma SpansRewritten()
    ensures Normalized("``a  b``") != "``a  b``" && Normalized("```a `  b```") != "```a `  b```"
  {
    EvenRewritten("``a  b``");
    OddRewritten("```a `  b```");
  }

  lemma EvenRewritten(span: string)
    requires span == "``a  b``"
    ensures Normalized(span) != span
  {
    assert span == Fence(2) + "a" + "  b``";
    FenceThen(2, "a", false);
    assert "a"[1..] == "" && !Parity("a", false);
    NotNeatAfter(Fence(2) + "a", "  b``");
    UnchangedIff(span);
  }

  lemma OddRewritten(span: string)
    requires span == "```a `  b```"
    ensures Normalized(span) != span
  {
    assert span == Fence(3) + "a `" + "  b```";
    FenceThen(3, "a `", false);
    OddParity("a `");
    NotNeatAfter(Fence(3) + "a `", "  b```");
    UnchangedIff(span);
  }

  lemma OddParity(text: string)
    requires text == "a `"
    ensures !Parity(text, true)
  {
    assert text[1..] == " `" && " `"[1..] == "`" && "`"[1..] == "";
    assert Parity("`", true) == Parity("", false);
    assert Parity(" `", true) == Parity("`", true);
  }

  lemma {:induction false} FenceThen(n: nat, s: string, inCode: bool)
    ensures Parity(Fence(n) + s, inCode) == Parity(s, Flipped(n, inCode))
  {
    if n == 0 {
      assert Fence(0) + s == s;
    } else {
      assert (Fence(n) + s)[0] == '`' && (Fence(n) + s)[1..] == Fence(n - 1) + s;
      FenceThen(n - 1, s, !inCode);
    }
  }

  /** Two spaces where an even number of backticks comes before. */
  lemma NotNeatAfter(a: string, b: string)
    requires |b| > 1 && b[0] == ' ' && b[1] == ' ' && !Parity(a, false)
    ensures !Neat(a + b, false, false)
  {
    NotNeatBehind(a, b, false, false);
  }

  lemma {:induction false} NotNeatBehind(a: string, b: string, inCode: bool, spaced: bool)
    requires |b| > 1 && b[0] == ' ' && b[1] == ' ' && !Parity(a, inCode)
    ensures !Neat(a + b, inCode, spaced)
    decreases |a|
  {
    if a == "" {
      assert a + b == b && b[1..][0] == ' ';
    } else {
      assert (a + b)[0] == a[0] && (a + b)[1..] == a[1..] + b;
      NotNeatBehind(a[1..], b, NextCode(a[0], inCode), a[0] == ' ' && !inCode);
    }
  }
}
