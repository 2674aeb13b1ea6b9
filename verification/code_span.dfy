/** Writing text as a Markdown code span, and reading one as section 6.1 of CommonMark
  * 0.31.2 says.
  */
module CodeSpan {

  datatype Option<T> = None | Some(value: T)

  // ---------------------------------------------------------------------
  // Runs of backticks
  // ---------------------------------------------------------------------

  function Ticks(n: nat): (r: string)
    ensures |r| == n && forall i :: 0 <= i < n ==> r[i] == '`'
  {
    seq(n, _ => '`')
  }

  function LeadingRun(s: string): (n: nat)
    ensures n <= |s| && (forall i :: 0 <= i < n ==> s[i] == '`') && (n < |s| ==> s[n] != '`')
  {
    if s == "" || s[0] != '`' then 0 else 1 + LeadingRun(s[1..])
  }

  function TrailingRun(s: string): (n: nat)
    ensures n <= |s| && (forall i :: |s| - n <= i < |s| ==> s[i] == '`') && (n < |s| ==> s[|s| - 1 - n] != '`')
  {
    if s == "" || s[|s| - 1] != '`' then 0 else 1 + TrailingRun(s[..|s| - 1])
  }

  function LongestRun(s: string): nat {
    if s == "" then 0
    else
      var before, last := LongestRun(s[..|s| - 1]), TrailingRun(s);
      if last > before then last else before
  }

  predicate AllTicks(s: string, from: nat, to: nat)
    requires from <= to <= |s|
  {
    forall i :: from <= i < to ==> s[i] == '`'
  }

  lemma {:induction false} LeadingIs(s: string, n: nat)
    requires n <= |s| && AllTicks(s, 0, n) && (n < |s| ==> s[n] != '`')
    ensures LeadingRun(s) == n
    decreases n
  {
    if n > 0 { LeadingIs(s[1..], n - 1); }
  }

  /** No run of backticks in the text is longer. */
  lemma {:induction false} RunWithin(s: string, from: nat, to: nat)
    requires from <= to <= |s| && AllTicks(s, from, to)
    ensures to - from <= LongestRun(s)
    decreases |s|
  {
    if s != "" && to < |s| {
      RunWithin(s[..|s| - 1], from, to);
    }
  }

  /** And some run is that long. */
  lemma {:induction false} LongestRunAt(s: string) returns (from: nat)
    ensures from + LongestRun(s) <= |s| && AllTicks(s, from, from + LongestRun(s))
    decreases |s|
  {
    from := 0;
    if s != "" {
      if TrailingRun(s) > LongestRun(s[..|s| - 1]) {
        from := |s| - TrailingRun(s);
      } else {
        from := LongestRunAt(s[..|s| - 1]);
      }
    }
  }

  // ---------------------------------------------------------------------
  // Writing
  // ---------------------------------------------------------------------

  predicate Touches(text: string) {
    text != "" && (text[0] == '`' || text[|text| - 1] == '`')
  }

  function Pad(text: string): string {
    if Touches(text) then " " else ""
  }

  function Written(text: string): string {
    var fence := Ticks(LongestRun(text) + 1);
    fence + Pad(text) + text + Pad(text) + fence
  }

  method CodeSpan(text: string) returns (span: string)
    ensures span == Written(text)
  {
    var longest, run := 0, 0;
    for i := 0 to |text|
      invariant run == TrailingRun(text[..i]) && longest == LongestRun(text[..i])
    {
      assert text[..i + 1][..i] == text[..i];
      run := if text[i] == '`' then run + 1 else 0;
      longest := if run > longest then run else longest;
    }
    assert text[..|text|] == text;
    var fence := Ticks(longest + 1);
    var pad := if text != "" && (text[0] == '`' || text[|text| - 1] == '`') then " " else "";
    span := fence + pad + text + pad + fence;
  }

  // ---------------------------------------------------------------------
  // Reading
  // ---------------------------------------------------------------------

  /** Where the first run of exactly `n` backticks from `at` on starts. */
  function Closing(s: string, n: nat, at: nat): (r: Option<nat>)
    requires n > 0 && at <= |s|
    ensures r.Some? ==> at <= r.value && r.value + n <= |s|
    decreases |s| - at
  {
    if at == |s| then None
    else if s[at] != '`' then Closing(s, n, at + 1)
    else
      var run := LeadingRun(s[at..]);
      if run == n then Some(at) else Closing(s, n, at + run)
  }

  predicate IsLineEnd(c: char) {
    c == '\n' || c == '\r'
  }

  /** Each line ending turned into a space. */
  function Unlined(s: string): string {
    if s == "" then ""
    else if |s| > 1 && s[0] == '\r' && s[1] == '\n' then " " + Unlined(s[2..])
    else [if IsLineEnd(s[0]) then ' ' else s[0]] + Unlined(s[1..])
  }

  /** Begins and ends with a space, and is not all spaces. */
  predicate Spaced(s: string) {
    s != "" && s[0] == ' ' && s[|s| - 1] == ' ' && exists i :: 0 <= i < |s| && s[i] != ' '
  }

  function Stripped(s: string): string {
    if Spaced(s) then s[1..|s| - 1] else s
  }

  /** The code span that `s` starts with, and what comes after it. */
  function Read(s: string): Option<(string, string)> {
    var n := LeadingRun(s);
    if n == 0 then None
    else
      match Closing(s, n, n)
      case None => None
      case Some(k) => Some((Stripped(Unlined(s[n..k])), s[k + n..]))
  }

  // ---------------------------------------------------------------------
  // Reading what was written
  // ---------------------------------------------------------------------

  /** Up to `end`, past `n` backticks, a body that does not touch its fence and whose
    * runs are all shorter; then the fence again, and no more.
    */
  ghost predicate Framed(s: string, n: nat, end: nat) {
    && 0 < n < end && end + n <= |s|
    && AllTicks(s, 0, n) && s[n] != '`' && s[end - 1] != '`' && AllTicks(s, end, end + n)
    && (end + n < |s| ==> s[end + n] != '`')
    && forall from, to :: n <= from <= to <= end && AllTicks(s, from, to) ==> to - from < n
  }

  lemma {:induction false} ClosesAtEnd(s: string, n: nat, end: nat, at: nat)
    requires Framed(s, n, end) && n <= at <= end
    ensures Closing(s, n, at) == Some(end)
    decreases end - at
  {
    if at == end {
      LeadingIs(s[at..], n);
    } else if s[at] != '`' {
      ClosesAtEnd(s, n, end, at + 1);
    } else {
      var run := LeadingRun(s[at..]);
      RunStaysInside(s, at, end, run);
      assert AllTicks(s, at, at + run);
      ClosesAtEnd(s, n, end, at + run);
    }
  }

  lemma RunStaysInside(s: string, at: nat, end: nat, run: nat)
    requires at < end <= |s| && s[end - 1] != '`' && run == LeadingRun(s[at..])
    ensures at + run < end && AllTicks(s, at, at + run)
  {
    var tail := s[at..];
    assert tail[end - 1 - at] == s[end - 1];
    forall i | at <= i < at + run ensures s[i] == '`' { assert tail[i - at] == s[i]; }
  }

  lemma ReadsFramed(s: string, n: nat, end: nat, body: string, rest: string)
    requires Framed(s, n, end) && s[n..end] == body && s[end + n..] == rest
    ensures Read(s) == Some((Stripped(Unlined(body)), rest))
  {
    LeadingIs(s, n);
    ClosesAtEnd(s, n, end, n);
  }

  /** A body that keeps off its fence, with shorter runs, framed by it. */
  lemma PutInFrame(s: string, n: nat, fence: string, body: string, rest: string, end: nat)
    requires s == fence + body + fence + rest && fence == Ticks(n) && end == n + |body|
    requires n > 0 && (rest == "" || rest[0] != '`')
    requires body != "" && body[0] != '`' && body[|body| - 1] != '`'
    requires forall from, to :: 0 <= from <= to <= |body| && AllTicks(body, from, to) ==> to - from < n
    ensures Framed(s, n, end) && s[n..end] == body && s[end + n..] == rest
  {
    assert forall i :: 0 <= i < |body| ==> s[n + i] == body[i];
    assert s[n] == body[0] && s[end - 1] == body[|body| - 1];
    assert end + n < |s| ==> s[end + n] == rest[0];
    forall from, to | n <= from <= to <= end && AllTicks(s, from, to) ensures to - from < n {
      forall i | from - n <= i < to - n ensures body[i] == '`' { assert s[n + i] == body[i]; }
      assert AllTicks(body, from - n, to - n);
    }
  }

  function Body(text: string): string {
    Pad(text) + text + Pad(text)
  }

  lemma BodyKeepsOff(text: string)
    requires text != ""
    ensures var body := Body(text); body != "" && body[0] != '`' && body[|body| - 1] != '`'
  {}

  lemma BodyRuns(text: string, from: nat, to: nat)
    requires text != "" && from <= to <= |Body(text)| && AllTicks(Body(text), from, to)
    ensures to - from <= LongestRun(text)
  {
    var body, pad := Body(text), |Pad(text)|;
    if from < to {
      assert body[from] == '`' && body[to - 1] == '`';
      forall i | from - pad <= i < to - pad ensures text[i] == '`' { assert body[pad + i] == text[i]; }
      RunWithin(text, from - pad, to - pad);
    }
  }

  lemma AllBodyRuns(text: string)
    requires text != ""
    ensures forall from, to :: 0 <= from <= to <= |Body(text)| && AllTicks(Body(text), from, to) ==>
      to - from <= LongestRun(text)
  {
    forall from, to | 0 <= from <= to <= |Body(text)| && AllTicks(Body(text), from, to)
      ensures to - from <= LongestRun(text)
    {
      BodyRuns(text, from, to);
    }
  }

  lemma WrittenIs(text: string, rest: string, fence: string)
    requires fence == Ticks(LongestRun(text) + 1)
    ensures Written(text) + rest == fence + Body(text) + fence + rest
  {
    var pad := Pad(text);
    assert fence + pad + text + pad == fence + Body(text);
  }

  lemma ReadsBody(text: string, rest: string)
    requires text != "" && (rest == "" || rest[0] != '`')
    ensures Read(Written(text) + rest) == Some((Stripped(Unlined(Body(text))), rest))
  {
    var s, n, body := Written(text) + rest, LongestRun(text) + 1, Body(text);
    var fence, end := Ticks(n), n + |body|;
    WrittenIs(text, rest, fence);
    BodyKeepsOff(text);
    AllBodyRuns(text);
    PutInFrame(s, n, fence, body, rest, end);
    ReadsFramed(s, n, end, body, rest);
  }

  predicate OneLine(s: string) {
    forall i :: 0 <= i < |s| ==> !IsLineEnd(s[i])
  }

  lemma {:induction false} UnlinedOneLine(s: string)
    ensures OneLine(Unlined(s)) && (OneLine(s) ==> Unlined(s) == s)
  {
    if s != "" {
      if |s| > 1 && s[0] == '\r' && s[1] == '\n' { UnlinedOneLine(s[2..]); }
      else {
        UnlinedOneLine(s[1..]);
        if OneLine(s) {
          assert OneLine(s[1..]) && s == [s[0]] + s[1..];
        }
      }
    }
  }

  /** Text that comes back as it was: some, on one line, and not spaced at both ends. */
  predicate Plain(text: string) {
    text != "" && OneLine(text) && !Spaced(text)
  }

  /** A code span is read back, whatever follows but a backtick, exactly when its text
    * is plain.
    */
  lemma ReadsBackIff(text: string, rest: string)
    requires rest == "" || rest[0] != '`'
    ensures Read(Written(text) + rest) == Some((text, rest)) <==> Plain(text)
  {
    if text == "" {
      EmptyNotRead(rest);
    } else {
      ReadsBody(text, rest);
      UnlinedOneLine(Body(text));
      StrippedOneLine(Unlined(Body(text)));
      if OneLine(text) { StripsThePad(text); }
    }
  }

  lemma StrippedOneLine(s: string)
    requires OneLine(s)
    ensures OneLine(Stripped(s))
  {}

  lemma StripsThePad(text: string)
    requires text != "" && OneLine(text)
    ensures var body := Body(text);
      OneLine(body) && (Stripped(body) == text <==> !Spaced(text))
  {
    var body := Body(text);
    if Touches(text) {
      var i := if text[0] == '`' then 0 else |text| - 1;
      assert body[1 + i] == text[i];
      assert Spaced(body) && body[1..|body| - 1] == text;
    } else {
      assert body == text;
      if Spaced(text) { assert |Stripped(text)| < |text|; }
    }
  }

  lemma EmptyNotRead(rest: string)
    requires rest == "" || rest[0] != '`'
    ensures Read(Written("") + rest) != Some(("", rest))
  {
    var s := Written("") + rest;
    assert s[0] == '`' && s[1] == '`' && (|s| > 2 ==> s[2] == rest[0]);
    LeadingIs(s, 2);
    var k := Closing(s, 2, 2);
    if k.Some? { assert |s[k.value + 2..]| < |rest|; }
  }
}
