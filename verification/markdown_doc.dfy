/** Printing a Markdown doc comment: fenced code blocks pass through, and the lines
  * around them are normalised and set apart by single blank lines.
  */
module MarkdownDoc {
  import opened MarkdownLine

  datatype Option<T> = None | Some(value: T)

  // ---------------------------------------------------------------------
  // Lines
  // ---------------------------------------------------------------------

  /** Where the first line feed is. */
  function LineFeed(s: string): (r: Option<nat>)
    ensures r.Some? ==> r.value < |s| && s[r.value] == '\n' && '\n' !in s[..r.value]
    ensures r.None? ==> '\n' !in s
  {
    if s == "" then None
    else if s[0] == '\n' then Some(0)
    else
      match LineFeed(s[1..])
      case None => None
      case Some(k) =>
        assert s[..k + 1] == [s[0]] + s[1..][..k];
        Some(k + 1)
  }

  predicate EndsInReturn(s: string) {
    s != "" && s[|s| - 1] == '\r'
  }

  function WithoutReturn(s: string): string {
    if EndsInReturn(s) then s[..|s| - 1] else s
  }

  datatype List = Nil | Cons(line: string, rest: List)

  /** The lines of a text, each without its line feed and one carriage return before it. */
  function Lines(s: string): List
    decreases |s|
  {
    if s == "" then Nil
    else
      match LineFeed(s)
      case None => Cons(s, Nil)
      case Some(k) => Cons(WithoutReturn(s[..k]), Lines(s[k + 1..]))
  }

  function Joined(lines: List): string {
    match lines
    case Nil => ""
    case Cons(line, rest) => line + ("\n" + Joined(rest))
  }

  /** What is left of lines once they are joined and split again. */
  function Reread(lines: List): List {
    match lines
    case Nil => Nil
    case Cons(line, rest) => Cons(WithoutReturn(line), Reread(rest))
  }

  /** No line feed in any line. */
  predicate Whole(lines: List) {
    lines.Cons? ==> '\n' !in lines.line && Whole(lines.rest)
  }

  lemma {:induction false} LinesAreWhole(s: string)
    ensures Whole(Lines(s))
    decreases |s|
  {
    var k := LineFeed(s);
    if s != "" && k.Some? { LinesAreWhole(s[k.value + 1..]); }
  }

  lemma {:induction false} LineFeedAfter(line: string, rest: string)
    requires '\n' !in line
    ensures LineFeed(line + ("\n" + rest)) == Some(|line|)
    decreases |line|
  {
    var s := line + ("\n" + rest);
    if line != "" {
      assert line[0] in line;
      assert s[0] == line[0] && s[1..] == line[1..] + ("\n" + rest);
      LineFeedAfter(line[1..], rest);
    }
  }

  lemma {:induction false} LinesOfJoined(lines: List)
    requires Whole(lines)
    ensures Lines(Joined(lines)) == Reread(lines)
  {
    if lines.Cons? {
      var line, rest := lines.line, Joined(lines.rest);
      var s := line + ("\n" + rest);
      LineFeedAfter(line, rest);
      assert s[..|line|] == line && s[|line| + 1..] == rest;
      LinesOfJoined(lines.rest);
    }
  }

  // ---------------------------------------------------------------------
  // Fences
  // ---------------------------------------------------------------------

  datatype Marker = Marker(ch: char, len: nat)

  /** How often `ch` comes first. */
  function Lead(s: string, ch: char): (n: nat)
    ensures n <= |s| && (forall i :: 0 <= i < n ==> s[i] == ch) && (n < |s| ==> s[n] != ch)
  {
    if s == "" || s[0] != ch then 0 else 1 + Lead(s[1..], ch)
  }

  function FenceOpen(s: string): (r: Option<Marker>)
    ensures r.Some? ==> s != "" && r.value.ch == s[0] && (s[0] == '`' || s[0] == '~') && 3 <= r.value.len <= |s|
  {
    if s == "" || (s[0] != '`' && s[0] != '~') then None
    else
      var len := Lead(s, s[0]);
      if len < 3 || (s[0] == '`' && '`' in s[len..]) then None else Some(Marker(s[0], len))
  }

  predicate Closes(s: string, open: Marker) {
    var count := Lead(s, open.ch);
    count >= open.len && forall i :: count <= i < |s| ==> s[i] == ' ' || s[i] == '\t'
  }

  /** A fenced block: its opening line, what is inside, and whether it is closed. */
  datatype Block = Block(opening: string, inner: seq<string>, closed: bool)

  function Outside(lines: List): seq<Block> {
    match lines
    case Nil => []
    case Cons(line, rest) =>
      match FenceOpen(TrimStart(line))
      case None => Outside(rest)
      case Some(marker) => Inside(rest, TrimStart(line), marker, [])
  }

  function Inside(lines: List, opening: string, marker: Marker, inner: seq<string>): seq<Block> {
    match lines
    case Nil => [Block(opening, inner, false)]
    case Cons(line, rest) =>
      if Closes(TrimStart(line), marker) then [Block(opening, inner, true)] + Outside(rest)
      else Inside(rest, opening, marker, inner + [line])
  }

  function Run(ch: char, n: nat): (r: string)
    ensures |r| == n && forall i :: 0 <= i < n ==> r[i] == ch
  {
    seq(n, _ => ch)
  }

  lemma {:induction false} LeadOfRun(ch: char, n: nat, rest: string)
    requires rest == "" || rest[0] != ch
    ensures Lead(Run(ch, n) + rest, ch) == n
    decreases n
  {
    var s := Run(ch, n) + rest;
    if n == 0 {
      assert s == rest;
    } else {
      assert s[0] == ch && s[1..] == Run(ch, n - 1) + rest;
      LeadOfRun(ch, n - 1, rest);
    }
  }

  /** A line opens a fence exactly when it is three or more of one of the fence's two
    * characters and an info string, which holds no backtick after backticks.
    */
  lemma OpensMeans(s: string, m: Marker, info: string)
    requires info == "" || info[0] != m.ch
    requires s == Run(m.ch, m.len) + info
    ensures FenceOpen(s) == Some(m) <==> m.len >= 3 && (m.ch == '~' || (m.ch == '`' && '`' !in info))
  {
    LeadOfRun(m.ch, m.len, info);
    assert s[m.len..] == info;
    if m.len > 0 { assert s[0] == m.ch; }
  }

  /** And closes it exactly when it is as many of the character at least, and blanks. */
  lemma ClosesMeans(s: string, open: Marker, n: nat, rest: string)
    requires rest == "" || rest[0] != open.ch
    requires s == Run(open.ch, n) + rest
    ensures Closes(s, open) <==> n >= open.len && forall c :: c in rest ==> c == ' ' || c == '\t'
  {
    LeadOfRun(open.ch, n, rest);
    if Closes(s, open) {
      forall c | c in rest ensures c == ' ' || c == '\t' {
        var i :| 0 <= i < |rest| && rest[i] == c;
        assert s[n + i] == c;
      }
    }
    forall i | n <= i < |s| ensures s[i] in rest { assert s[i] == rest[i - n]; }
  }

  // ---------------------------------------------------------------------
  // Printing
  // ---------------------------------------------------------------------

  /** Where the printer stands after some lines. */
  datatype State = State(prevBlank: bool, inList: bool, inQuote: bool, prevHeading: bool, fence: Option<Marker>)

  const START := State(true, false, false, false, None)

  function StartsWith(s: string, prefix: string): bool {
    prefix <= s
  }

  predicate IsDigit(c: char) {
    '0' <= c <= '9'
  }

  function PastDigits(s: string): string {
    if s != "" && IsDigit(s[0]) then PastDigits(s[1..]) else s
  }

  predicate IsOrderedItem(s: string) {
    PastDigits(s) != s && StartsWith(PastDigits(s), ". ")
  }

  predicate IsItem(s: string) {
    StartsWith(s, "- ") || IsOrderedItem(s)
  }

  /** A line is an item exactly when it starts with a dash, or with a number and a dot, and
    * a space.
    */
  lemma ItemMeans(s: string)
    ensures IsItem(s) <==>
      || (exists rest: string :: s == "- " + rest)
      || (exists number: string, rest: string :: IsNumber(number) && s == number + (". " + rest))
  {
    if StartsWith(s, "- ") { assert s == "- " + s[2..]; }
    PastDigitsMeans(s);
    var past := PastDigits(s);
    if IsOrderedItem(s) {
      var number := s[..|s| - |past|];
      assert past == ". " + past[2..];
      assert IsNumber(number) && s == number + (". " + past[2..]);
    }
    if number: string, rest: string :| IsNumber(number) && s == number + (". " + rest) {
      DigitsPassed(number, ". " + rest);
      assert (". " + rest)[..2] == ". ";
    }
  }

  predicate IsNumber(s: string) {
    s != "" && forall i :: 0 <= i < |s| ==> IsDigit(s[i])
  }

  lemma {:induction false} PastDigitsMeans(s: string)
    ensures var past := PastDigits(s);
      && |past| <= |s| && s == s[..|s| - |past|] + past
      && forall i :: 0 <= i < |s| - |past| ==> IsDigit(s[i])
  {
    if s != "" && IsDigit(s[0]) { PastDigitsMeans(s[1..]); }
  }

  lemma {:induction false} DigitsPassed(number: string, rest: string)
    requires (forall i :: 0 <= i < |number| ==> IsDigit(number[i])) && (rest == "" || !IsDigit(rest[0]))
    ensures PastDigits(number + rest) == rest
    decreases |number|
  {
    if number == "" {
      assert number + rest == rest;
    } else {
      assert (number + rest)[0] == number[0] && (number + rest)[1..] == number[1..] + rest;
      DigitsPassed(number[1..], rest);
    }
  }

  predicate IsQuote(s: string) {
    StartsWith(s, "> ")
  }

  predicate IsHeading(s: string) {
    StartsWith(s, "#")
  }

  /** The line without trailing space, by which it is told what it is. */
  function Content(line: string): string {
    TrimEnd(TrimStart(Normalized(line)))
  }

  function Prefix(state: State, content: string): string {
    if state.inQuote && !IsQuote(content) && !IsHeading(content) then "> "
    else if state.inList && !IsItem(content) && !IsHeading(content) && !IsQuote(content) then "  "
    else ""
  }

  predicate SetApart(state: State, content: string) {
    !state.prevBlank
    && ((IsItem(content) && !state.inList) || (IsQuote(content) && !state.inQuote) || state.prevHeading)
  }

  function BlankIf(b: bool, after: List): List {
    if b then Cons("", after) else after
  }

  /** What is printed for one line, with what comes after. */
  function Printed(state: State, line: string, after: List): List {
    if state.fence.Some? then
      Cons(if Closes(TrimStart(line), state.fence.value) then TrimStart(line) else line, after)
    else if FenceOpen(TrimStart(line)).Some? then
      BlankIf(!state.prevBlank, Cons(TrimStart(line), after))
    else
      var content := Content(line);
      if content == "" then BlankIf(!state.prevBlank, after)
      else BlankIf(SetApart(state, content), Cons(Prefix(state, content) + Normalized(line), after))
  }

  function Next(state: State, line: string): State {
    if state.fence.Some? then
      if Closes(TrimStart(line), state.fence.value) then State(false, false, false, false, None)
      else state.(prevBlank := false)
    else if FenceOpen(TrimStart(line)).Some? then
      State(false, false, false, false, FenceOpen(TrimStart(line)))
    else NextAfter(state, Content(line))
  }

  /** After a line outside a fence. */
  function NextAfter(state: State, content: string): (r: State)
    ensures r.fence.None? && (r.prevBlank <==> content == "")
  {
    if content == "" then State(true, false, false, false, None)
    else if IsItem(content) then State(false, true, false, IsHeading(content), None)
    else if IsQuote(content) then State(false, false, true, IsHeading(content), None)
    else if IsHeading(content) then State(false, false, false, true, None)
    else State(false, state.inList, state.inQuote, false, None)
  }

  function Rendered(state: State, lines: List): List
    decreases lines
  {
    match lines
    case Nil => Nil
    case Cons(line, rest) => Printed(state, line, Rendered(Next(state, line), rest))
  }

  lemma OneThen(before: string, line: string, after: List)
    ensures before + Joined(Cons(line, after)) == before + line + "\n" + Joined(after)
  {}

  lemma BlankThen(before: string, b: bool, after: List)
    ensures before + Joined(BlankIf(b, after)) == (if b then before + "\n" else before) + Joined(after)
  {}

  lemma BlankThenOne(before: string, b: bool, line: string, after: List)
    ensures before + Joined(BlankIf(b, Cons(line, after)))
         == (if b then before + "\n" else before) + line + "\n" + Joined(after)
  {
    BlankThen(before, b, Cons(line, after));
    OneThen(if b then before + "\n" else before, line, after);
  }

  /** One line of the loop. */
  method RenderLine(before: string, state: State, line: string, ghost after: List) returns (out: string, next: State)
    ensures out + Joined(after) == before + Joined(Printed(state, line, after)) && next == Next(state, line)
  {
    out, next := before, state;
    var start := TrimStart(line);
    if state.fence.Some? {
      if Closes(start, state.fence.value) {
        out := out + start + "\n";
        next := State(false, false, false, false, None);
        OneThen(before, start, after);
      } else {
        out := out + line + "\n";
        next := next.(prevBlank := false);
        OneThen(before, line, after);
      }
    } else if FenceOpen(start).Some? {
      if !state.prevBlank { out := out + "\n"; }
      out := out + start + "\n";
      next := State(false, false, false, false, FenceOpen(start));
      BlankThenOne(before, !state.prevBlank, start, after);
      PrintedOpening(state, line, after);
    } else {
      out, next := RenderProse(before, state, line, after);
    }
  }

  method RenderProse(before: string, state: State, line: string, ghost after: List) returns (out: string, next: State)
    requires state.fence.None? && FenceOpen(TrimStart(line)).None?
    ensures out + Joined(after) == before + Joined(Printed(state, line, after)) && next == Next(state, line)
  {
    out, next := before, state;
    var normalized := NormalizeLine(line);
    var content := TrimEnd(TrimStart(normalized));
    if content == "" {
      if !state.prevBlank { out := out + "\n"; }
      next := State(true, false, false, false, None);
      BlankThen(before, !state.prevBlank, after);
      PrintedBlank(state, line, after);
      return;
    }
    var isItem, isQuote, isHeading := IsItem(content), IsQuote(content), IsHeading(content);
    var apart := !state.prevBlank && ((isItem && !state.inList) || (isQuote && !state.inQuote) || state.prevHeading);
    if apart { out := out + "\n"; }
    var prefix := if state.inQuote && !isQuote && !isHeading then "> "
                  else if state.inList && !isItem && !isHeading && !isQuote then "  "
                  else "";
    out := out + (prefix + normalized) + "\n";
    PrintedProse(state, line, after);
    BlankThenOne(before, apart, prefix + normalized, after);
    next := next.(prevBlank := false, prevHeading := isHeading);
    if isItem {
      next := next.(inList := true, inQuote := false);
    } else if isQuote {
      next := next.(inQuote := true, inList := false);
    } else if isHeading {
      next := next.(inList := false, inQuote := false);
    }
  }

  method RenderDoc(before: string, doc: string) returns (out: string)
    ensures out == before + Joined(Rendered(START, Lines(doc)))
  {
    out := before;
    var state, lines := START, Lines(doc);
    while lines.Cons?
      decreases lines
      invariant out + Joined(Rendered(state, lines)) == before + Joined(Rendered(START, Lines(doc)))
    {
      out, state := RenderLine(out, state, lines.line, Rendered(Next(state, lines.line), lines.rest));
      lines := lines.rest;
    }
  }

  // ---------------------------------------------------------------------
  // Fenced blocks are kept
  // ---------------------------------------------------------------------

  /** No line of a block ends in a carriage return. */
  predicate Clean(blocks: seq<Block>) {
    forall i :: 0 <= i < |blocks| ==> CleanBlock(blocks[i])
  }

  predicate CleanBlock(b: Block) {
    !EndsInReturn(b.opening) && forall k :: 0 <= k < |b.inner| ==> !EndsInReturn(b.inner[k])
  }

  /** The first block is the one begun. */
  lemma {:induction false} InsideFirst(lines: List, opening: string, marker: Marker, inner: seq<string>)
    ensures var blocks := Inside(lines, opening, marker, inner);
      blocks != [] && blocks[0].opening == opening && inner <= blocks[0].inner
  {
    if lines.Cons? && !Closes(TrimStart(lines.line), marker) {
      InsideFirst(lines.rest, opening, marker, inner + [lines.line]);
    }
  }

  /** A carriage return at the end makes no difference to what opens a fence. */
  lemma OpensWithoutReturn(s: string)
    requires s == TrimStart(s)
    ensures TrimStart(WithoutReturn(s)) == WithoutReturn(s) && FenceOpen(WithoutReturn(s)) == FenceOpen(s)
  {
    var r := WithoutReturn(s);
    if EndsInReturn(s) && (s[0] == '`' || s[0] == '~') {
      assert s == r + "\r";
      LeadBefore(r, s[0], '\r');
      var len := Lead(r, s[0]);
      assert s[len..] == r[len..] + "\r";
    }
  }

  lemma {:induction false} LeadBefore(s: string, ch: char, c: char)
    requires c != ch
    ensures Lead(s + [c], ch) == Lead(s, ch)
  {
    if s != "" {
      assert (s + [c])[0] == s[0] && (s + [c])[1..] == s[1..] + [c];
      LeadBefore(s[1..], ch, c);
    }
  }

  lemma {:induction false} CollapsedLead(s: string, inCode: bool, ch: char)
    requires ch == '`' || ch == '~'
    ensures Lead(Collapsed(s, inCode, false), ch) == Lead(s, ch)
  {
    if s != "" {
      var rest := Collapsed(s[1..], NextCode(s[0], inCode), s[0] == ' ' && !inCode);
      assert ([s[0]] + rest)[0] == s[0] && ([s[0]] + rest)[1..] == rest;
      if s[0] == ch { CollapsedLead(s[1..], NextCode(s[0], inCode), ch); }
    }
  }

  lemma {:induction false} EmphasisedLead(s: string, inCode: bool, ch: char)
    requires ch == '`' || ch == '~'
    ensures Lead(Emphasised(s, inCode), ch) == Lead(s, ch)
  {
    if s != "" {
      var mark, r := Marked(s, inCode), Emphasised(s, inCode);
      assert r[0] == mark[0] && r[|mark|..] == Emphasised(s[|mark|..], NextCode(s[0], inCode));
      if s[0] == ch { EmphasisedLead(s[1..], NextCode(s[0], inCode), ch); }
    }
  }

  function TicksIn(ink: seq<(char, bool, bool)>): nat {
    if ink == [] then 0 else (if ink[0].0 == '`' then 1 else 0) + TicksIn(ink[1..])
  }

  function Ticks(s: string): nat {
    if s == "" then 0 else (if s[0] == '`' then 1 else 0) + Ticks(s[1..])
  }

  lemma {:induction false} InkTicks(s: string, inCode: bool, spaced: bool)
    ensures TicksIn(Ink(s, inCode, spaced)) == Ticks(s)
  {
    if s != "" { InkTicks(s[1..], NextCode(s[0], inCode), s[0] == ' ' && !inCode); }
  }

  /** A backtick after the leading ones. */
  lemma {:induction false} TicksPastLead(s: string)
    ensures '`' in s[Lead(s, '`')..] <==> Ticks(s) > Lead(s, '`')
  {
    if s != "" && s[0] == '`' {
      assert s[Lead(s, '`')..] == s[1..][Lead(s[1..], '`')..];
      TicksPastLead(s[1..]);
    } else {
      NoTicksIff(s);
      assert s[0..] == s;
    }
  }

  lemma {:induction false} NoTicksIff(s: string)
    ensures '`' in s <==> Ticks(s) > 0
  {
    if s != "" {
      assert s == [s[0]] + s[1..];
      NoTicksIff(s[1..]);
    }
  }

  /** A line of prose does not become a fence. */
  lemma NormalizedOpens(line: string)
    ensures FenceOpen(Normalized(line)) == FenceOpen(TrimStart(line))
  {
    var s, r := TrimStart(line), Normalized(line);
    var collapsed := Collapsed(s, false, false);
    CollapsedLead(s, false, '`');
    CollapsedLead(s, false, '~');
    EmphasisedLead(collapsed, false, '`');
    EmphasisedLead(collapsed, false, '~');
    NormalizedKeepsInk(line);
    InkTicks(s, false, false);
    InkTicks(r, false, false);
    TicksPastLead(s);
    TicksPastLead(r);
    assert s != "" && s[0] == '`' <==> Lead(s, '`') > 0;
    assert r != "" && r[0] == '`' <==> Lead(r, '`') > 0;
    assert s != "" && s[0] == '~' <==> Lead(s, '~') > 0;
    assert r != "" && r[0] == '~' <==> Lead(r, '~') > 0;
  }

  lemma TrimSpace(s: string)
    ensures TrimStart(" " + s) == TrimStart(s)
  {
    assert (" " + s)[0] == ' ' && (" " + s)[1..] == s;
  }

  predicate Prosaic(prose: string) {
    prose != "" && !IsWhite(prose[0]) && FenceOpen(prose).None?
  }

  lemma TrimIndent(s: string)
    ensures TrimStart("  " + s) == TrimStart(s)
  {
    assert "  " + s == " " + (" " + s);
    TrimSpace(" " + s);
    TrimSpace(s);
  }

  lemma IndentedStays(prose: string)
    requires Prosaic(prose)
    ensures Prosaic(TrimStart("  " + prose))
  {
    TrimIndent(prose);
  }

  lemma QuotedStays(prose: string)
    ensures Prosaic("> " + prose)
  {
    assert ("> " + prose)[0] == '>';
  }

  lemma ReadProsaic(prose: string)
    requires Prosaic(prose)
    ensures Prosaic(WithoutReturn(prose))
  {
    OpensWithoutReturn(prose);
    assert WithoutReturn(prose) != "" && WithoutReturn(prose)[0] == prose[0];
  }

  lemma PrefixReturn(prefix: string, prose: string)
    requires prose != ""
    ensures WithoutReturn(prefix + prose) == prefix + WithoutReturn(prose)
  {}

  /** Without a prefix, indented, or quoted, a line of prose reads as no fence. */
  lemma PrefixedStays(prefix: string, prose: string)
    requires Prosaic(prose) && (prefix == "" || prefix == "  " || prefix == "> ")
    ensures Prosaic(TrimStart(WithoutReturn(prefix + prose)))
  {
    var bare := WithoutReturn(prose);
    ReadProsaic(prose);
    PrefixReturn(prefix, prose);
    if prefix == "  " {
      IndentedStays(bare);
    } else if prefix == "" {
      assert prefix + bare == bare;
    } else {
      QuotedStays(bare);
    }
  }

  /** A line of prose is printed, and read again, as one. */
  lemma ProseStays(state: State, line: string)
    requires FenceOpen(TrimStart(line)).None? && Content(line) != ""
    ensures Prosaic(TrimStart(WithoutReturn(Prefix(state, Content(line)) + Normalized(line))))
  {
    NormalizedIsNormal(line);
    NormalizedOpens(line);
    PrefixedStays(Prefix(state, Content(line)), Normalized(line));
  }

  /** What is read again of what is printed. */
  function Again(state: State, lines: List): List {
    Reread(Rendered(state, lines))
  }

  lemma ClosesWithoutReturn(s: string, marker: Marker)
    requires Closes(s, marker) && marker.ch != '\r'
    ensures WithoutReturn(s) == s
  {
    var count, last := Lead(s, marker.ch), |s| - 1;
    if s != "" {
      assert last < count ==> s[last] == marker.ch;
      assert count <= last ==> s[last] == ' ' || s[last] == '\t';
    }
  }

  /** What is printed of these lines has their blocks exactly when those are clean. */
  ghost predicate Kept(state: State, lines: List) {
    Outside(Again(state, lines)) == Outside(lines) <==> Clean(Outside(lines))
  }

  ghost predicate KeptWithin(state: State, lines: List, opening: string, marker: Marker, inner: seq<string>) {
    Inside(Again(state, lines), opening, marker, inner) == Inside(lines, opening, marker, inner)
    <==> Clean(Inside(lines, opening, marker, inner))
  }

  lemma {:induction false} KeptOutside(state: State, lines: List)
    requires state.fence.None?
    ensures Kept(state, lines)
    decreases lines
  {
    if lines.Cons? {
      var line, rest := lines.line, lines.rest;
      var open := FenceOpen(TrimStart(line));
      if open.Some? {
        KeptInside(Next(state, line), rest, TrimStart(line), open.value, []);
        AgainOpening(state, line, rest, open.value);
        OpeningIff(TrimStart(line), open.value, rest, Again(Next(state, line), rest));
      } else {
        KeptOutside(Next(state, line), rest);
        ProseOutside(state, line, rest);
      }
    }
  }

  lemma BlankRead()
    ensures TrimStart(WithoutReturn("")) == "" && FenceOpen("") == None
  {}

  /** A blank line printed before makes no difference. */
  lemma OutsideBlankIf(b: bool, after: List)
    ensures Outside(Reread(BlankIf(b, after))) == Outside(Reread(after))
  {
    BlankRead();
  }

  lemma PrintedOpening(state: State, line: string, after: List)
    requires state.fence.None? && FenceOpen(TrimStart(line)).Some?
    ensures Printed(state, line, after) == BlankIf(!state.prevBlank, Cons(TrimStart(line), after))
  {}

  lemma PrintedProse(state: State, line: string, after: List)
    requires state.fence.None? && FenceOpen(TrimStart(line)).None? && Content(line) != ""
    ensures Printed(state, line, after)
         == BlankIf(SetApart(state, Content(line)), Cons(Prefix(state, Content(line)) + Normalized(line), after))
  {}

  lemma PrintedBlank(state: State, line: string, after: List)
    requires state.fence.None? && FenceOpen(TrimStart(line)).None? && Content(line) == ""
    ensures Printed(state, line, after) == BlankIf(!state.prevBlank, after)
  {}

  lemma AgainOpening(state: State, line: string, rest: List, marker: Marker)
    requires state.fence.None? && FenceOpen(TrimStart(line)) == Some(marker)
    ensures Outside(Again(state, Cons(line, rest)))
         == Inside(Again(Next(state, line), rest), WithoutReturn(TrimStart(line)), marker, [])
  {
    var after := Rendered(Next(state, line), rest);
    PrintedOpening(state, line, after);
    ReadOpening(!state.prevBlank, TrimStart(line), after, marker);
  }

  lemma ReadOpening(b: bool, start: string, after: List, marker: Marker)
    requires TrimStart(start) == start && FenceOpen(start) == Some(marker)
    ensures Outside(Reread(BlankIf(b, Cons(start, after)))) == Inside(Reread(after), WithoutReturn(start), marker, [])
  {
    OutsideBlankIf(b, Cons(start, after));
    OpensWithoutReturn(start);
  }

  lemma ReadProse(b: bool, printed: string, after: List)
    requires FenceOpen(TrimStart(WithoutReturn(printed))).None?
    ensures Outside(Reread(BlankIf(b, Cons(printed, after)))) == Outside(Reread(after))
  {
    OutsideBlankIf(b, Cons(printed, after));
  }

  lemma OpeningIff(start: string, marker: Marker, rest: List, after: List)
    requires !EndsInReturn(start) ==>
      (Inside(after, start, marker, []) == Inside(rest, start, marker, []) <==> Clean(Inside(rest, start, marker, [])))
    ensures Inside(after, WithoutReturn(start), marker, []) == Inside(rest, start, marker, [])
       <==> Clean(Inside(rest, start, marker, []))
  {
    InsideFirst(rest, start, marker, []);
    InsideFirst(after, WithoutReturn(start), marker, []);
  }

  /** Prose adds no block. */
  lemma ProseOutside(state: State, line: string, rest: List)
    requires state.fence.None? && FenceOpen(TrimStart(line)).None?
    ensures Outside(Again(state, Cons(line, rest))) == Outside(Again(Next(state, line), rest))
  {
    var content, after := Content(line), Rendered(Next(state, line), rest);
    if content != "" {
      ProseStays(state, line);
      PrintedProse(state, line, after);
      ReadProse(SetApart(state, content), Prefix(state, content) + Normalized(line), after);
    } else {
      PrintedBlank(state, line, after);
      OutsideBlankIf(!state.prevBlank, after);
    }
  }

  lemma {:induction false} KeptInside(state: State, lines: List, opening: string, marker: Marker, inner: seq<string>)
    requires state.fence == Some(marker) && marker.ch != '\r'
    ensures CleanBlock(Block(opening, inner, false)) ==> KeptWithin(state, lines, opening, marker, inner)
    decreases lines
  {
    if CleanBlock(Block(opening, inner, false)) && lines.Cons? {
      var line, rest := lines.line, lines.rest;
      var next := Next(state, line);
      if Closes(TrimStart(line), marker) {
        ClosesWithoutReturn(TrimStart(line), marker);
        KeptOutside(next, rest);
        AfterBlock(Block(opening, inner, true), Outside(Again(next, rest)), Outside(rest));
      } else if EndsInReturn(line) {
        UncleanLine(line, rest, Again(next, rest), opening, marker, inner);
      } else {
        KeptInside(next, rest, opening, marker, inner + [line]);
      }
    }
  }

  lemma AfterBlock(b: Block, x: seq<Block>, y: seq<Block>)
    requires CleanBlock(b)
    ensures [b] + x == [b] + y <==> x == y
    ensures Clean([b] + y) <==> Clean(y)
  {
    assert ([b] + x)[1..] == x && ([b] + y)[1..] == y;
    if Clean([b] + y) { AfterCleanBlock(b, y); }
  }

  lemma AfterCleanBlock(b: Block, blocks: seq<Block>)
    requires Clean([b] + blocks)
    ensures Clean(blocks)
  {
    forall i | 0 <= i < |blocks| ensures CleanBlock(blocks[i]) { assert ([b] + blocks)[i + 1] == blocks[i]; }
  }

  /** A line that ends in a carriage return comes back without it, or closes the fence. */
  lemma UncleanLine(line: string, rest: List, after: List, opening: string, marker: Marker, inner: seq<string>)
    requires EndsInReturn(line)
    ensures var blocks := Inside(rest, opening, marker, inner + [line]);
      Inside(Cons(WithoutReturn(line), after), opening, marker, inner) != blocks && !Clean(blocks)
  {
    var read := WithoutReturn(line);
    InsideFirst(rest, opening, marker, inner + [line]);
    var first := Inside(rest, opening, marker, inner + [line])[0];
    assert first.inner[|inner|] == line;
    if !Closes(TrimStart(read), marker) {
      InsideFirst(after, opening, marker, inner + [read]);
      assert Inside(after, opening, marker, inner + [read])[0].inner[|inner|] == read;
    }
  }

  lemma {:induction false} RenderedWhole(state: State, lines: List)
    requires Whole(lines)
    ensures Whole(Rendered(state, lines))
    decreases lines
  {
    if lines.Cons? {
      RenderedWhole(Next(state, lines.line), lines.rest);
      PrintedWhole(state, lines.line, Rendered(Next(state, lines.line), lines.rest));
    }
  }

  lemma PrintedWhole(state: State, line: string, after: List)
    requires '\n' !in line && Whole(after)
    ensures Whole(Printed(state, line, after))
  {
    if state.fence.None? && FenceOpen(TrimStart(line)).None? {
      NormalizedWhole(line);
      if Content(line) == "" {
        PrintedBlank(state, line, after);
      } else {
        PrintedProse(state, line, after);
        WholePrefix(Prefix(state, Content(line)), Normalized(line));
      }
    } else {
      TrimStartIsSuffix(line);
    }
  }

  lemma WholePrefix(prefix: string, prose: string)
    requires '\n' !in prose && '\n' !in prefix
    ensures '\n' !in prefix + prose
  {}

  lemma NormalizedWhole(line: string)
    requires '\n' !in line
    ensures '\n' !in Normalized(line)
  {
    TrimStartIsSuffix(line);
    CollapsedWhole(TrimStart(line), false, false);
    EmphasisedWhole(Collapsed(TrimStart(line), false, false), false);
  }

  lemma {:induction false} CollapsedWhole(s: string, inCode: bool, spaced: bool)
    requires '\n' !in s
    ensures '\n' !in Collapsed(s, inCode, spaced)
  {
    if s != "" { CollapsedWhole(s[1..], NextCode(s[0], inCode), s[0] == ' ' && !inCode); }
  }

  lemma {:induction false} EmphasisedWhole(s: string, inCode: bool)
    requires '\n' !in s
    ensures '\n' !in Emphasised(s, inCode)
    decreases |s|
  {
    if s != "" { EmphasisedWhole(s[|Marked(s, inCode)|..], NextCode(s[0], inCode)); }
  }

  /** What is printed of a doc reads as the same fenced blocks, line for line, exactly
    * when no line of a block ends in a carriage return of its own.
    */
  lemma BlocksKeptIff(doc: string)
    ensures var printed := Joined(Rendered(START, Lines(doc)));
      Outside(Lines(printed)) == Outside(Lines(doc)) <==> Clean(Outside(Lines(doc)))
  {
    LinesAreWhole(doc);
    RenderedWhole(START, Lines(doc));
    LinesOfJoined(Rendered(START, Lines(doc)));
    KeptOutside(START, Lines(doc));
  }

  // ---------------------------------------------------------------------
  // Blank lines
  // ---------------------------------------------------------------------

  /** Outside fences no blank line follows another, nor, with `blank`, comes first. */
  predicate Tidy(lines: List, fence: Option<Marker>, blank: bool) {
    match lines
    case Nil => true
    case Cons(line, rest) =>
      var start := TrimStart(line);
      if fence.Some? then Tidy(rest, if Closes(start, fence.value) then None else fence, false)
      else if start == "" then !blank && Tidy(rest, None, true)
      else Tidy(rest, FenceOpen(start), false)
  }

  lemma {:induction false} TidyOutside(state: State, lines: List)
    requires state.fence.None? && Clean(Outside(lines))
    ensures Tidy(Again(state, lines), None, state.prevBlank)
    decreases lines
  {
    if lines.Cons? {
      var line, rest := lines.line, lines.rest;
      var open := FenceOpen(TrimStart(line));
      if open.Some? {
        TidyInside(Next(state, line), rest, TrimStart(line), open.value, []);
        InsideFirst(rest, TrimStart(line), open.value, []);
        PrintedOpening(state, line, Rendered(Next(state, line), rest));
        TidyLine(!state.prevBlank, state.prevBlank, TrimStart(line), Rendered(Next(state, line), rest));
      } else {
        TidyOutside(Next(state, line), rest);
        TidyProse(state, line, rest);
      }
    }
  }

  /** A line that is not blank, set apart or not. */
  lemma TidyLine(apart: bool, blank: bool, printed: string, after: List)
    requires (apart ==> !blank) && TrimStart(WithoutReturn(printed)) != ""
    ensures Tidy(Reread(BlankIf(apart, Cons(printed, after))), None, blank)
         == Tidy(Reread(after), FenceOpen(TrimStart(WithoutReturn(printed))), false)
  {
    BlankRead();
  }

  lemma TidyProse(state: State, line: string, rest: List)
    requires state.fence.None? && FenceOpen(TrimStart(line)).None?
    requires Tidy(Again(Next(state, line), rest), None, Next(state, line).prevBlank)
    ensures Tidy(Again(state, Cons(line, rest)), None, state.prevBlank)
  {
    var content, after := Content(line), Rendered(Next(state, line), rest);
    if content != "" {
      ProseStays(state, line);
      PrintedProse(state, line, after);
      NextProse(state, line);
      TidyLine(SetApart(state, content), state.prevBlank, Prefix(state, content) + Normalized(line), after);
    } else {
      PrintedBlank(state, line, after);
      NextProse(state, line);
      BlankRead();
    }
  }

  lemma NextProse(state: State, line: string)
    requires state.fence.None? && FenceOpen(TrimStart(line)).None?
    ensures Next(state, line).prevBlank <==> Content(line) == ""
    ensures Next(state, line).fence.None?
  {}

  lemma {:induction false} TidyInside(state: State, lines: List, opening: string, marker: Marker, inner: seq<string>)
    requires state.fence == Some(marker) && marker.ch != '\r' && Clean(Inside(lines, opening, marker, inner))
    ensures Tidy(Again(state, lines), Some(marker), false)
    decreases lines
  {
    if lines.Cons? {
      var line, rest := lines.line, lines.rest;
      if Closes(TrimStart(line), marker) {
        ClosesWithoutReturn(TrimStart(line), marker);
        AfterCleanBlock(Block(opening, inner, true), Outside(rest));
        TidyOutside(Next(state, line), rest);
      } else {
        CleanInner(rest, opening, marker, inner, line);
        TidyInside(Next(state, line), rest, opening, marker, inner + [line]);
      }
    }
  }

  lemma CleanInner(rest: List, opening: string, marker: Marker, inner: seq<string>, line: string)
    requires Clean(Inside(rest, opening, marker, inner + [line]))
    ensures !EndsInReturn(line)
  {
    InsideFirst(rest, opening, marker, inner + [line]);
    var first := Inside(rest, opening, marker, inner + [line])[0];
    assert CleanBlock(first) && first.inner[|inner|] == line;
  }

  /** A line that is not blank, set apart or not, as it is printed. */
  lemma TidyAsPrinted(apart: bool, blank: bool, printed: string, after: List)
    requires (apart ==> !blank) && TrimStart(printed) != ""
    ensures Tidy(BlankIf(apart, Cons(printed, after)), None, blank) == Tidy(after, FenceOpen(TrimStart(printed)), false)
  {
    BlankRead();
  }

  /** What is printed, of any doc, neither starts with a blank line outside a fence nor
    * has two in a row.
    */
  lemma {:induction false} TidyPrinted(state: State, lines: List)
    ensures Tidy(Rendered(state, lines), state.fence, state.prevBlank)
    decreases lines
  {
    if lines.Cons? {
      var line, rest := lines.line, lines.rest;
      TidyPrinted(Next(state, line), rest);
      if state.fence.Some? {
        TidyFenceLine(state, line, rest);
      } else if FenceOpen(TrimStart(line)).Some? {
        var after := Rendered(Next(state, line), rest);
        PrintedOpening(state, line, after);
        TidyAsPrinted(!state.prevBlank, state.prevBlank, TrimStart(line), after);
      } else {
        TidyProseLine(state, line, rest);
      }
    }
  }

  lemma TidyFenceLine(state: State, line: string, rest: List)
    requires state.fence.Some?
    requires var next := Next(state, line); Tidy(Rendered(next, rest), next.fence, next.prevBlank)
    ensures Tidy(Rendered(state, Cons(line, rest)), state.fence, state.prevBlank)
  {}

  lemma TidyProseLine(state: State, line: string, rest: List)
    requires state.fence.None? && FenceOpen(TrimStart(line)).None?
    requires var next := Next(state, line); Tidy(Rendered(next, rest), next.fence, next.prevBlank)
    ensures Tidy(Rendered(state, Cons(line, rest)), None, state.prevBlank)
  {
    var content, after := Content(line), Rendered(Next(state, line), rest);
    NextProse(state, line);
    if content != "" {
      NormalizedIsNormal(line);
      NormalizedOpens(line);
      PrefixedProsaic(Prefix(state, content), Normalized(line));
      PrintedProse(state, line, after);
      TidyAsPrinted(SetApart(state, content), state.prevBlank, Prefix(state, content) + Normalized(line), after);
    } else {
      PrintedBlank(state, line, after);
      BlankRead();
    }
  }

  /** Read again, that holds of every clean doc. */
  lemma SingleBlanks(doc: string)
    ensures Tidy(Rendered(START, Lines(doc)), None, true)
    ensures Clean(Outside(Lines(doc))) ==> Tidy(Lines(Joined(Rendered(START, Lines(doc)))), None, true)
  {
    TidyPrinted(START, Lines(doc));
    if Clean(Outside(Lines(doc))) {
      LinesAreWhole(doc);
      RenderedWhole(START, Lines(doc));
      LinesOfJoined(Rendered(START, Lines(doc)));
      TidyOutside(START, Lines(doc));
    }
  }

  /** And not of every doc: a closing fence with a carriage return of its own does not
    * close, is printed as it is, and closes when read, with two blank lines behind it.
    */
  lemma ReturnUntidies() returns (doc: string)
    ensures !Tidy(Lines(Joined(Rendered(START, Lines(doc)))), None, true)
  {
    var ends := Cons("", Cons("", Nil));
    var written := Cons("```", Cons("```\r\r", ends));
    var lines := Cons("```", Cons("```\r", ends));
    doc := Joined(written);
    LinesOfJoined(written);
    RereadEnds(ends);
    LinesAreWhole(doc);
    RenderedWhole(START, lines);
    OpenToTheEnd(lines, ends);
    LinesOfJoined(Rendered(START, lines));
    ClosedWhenRead(ends);
  }

  lemma RereadEnds(ends: List)
    requires ends == Cons("", Cons("", Nil))
    ensures Reread(Cons("```", Cons("```\r\r", ends))) == Cons("```", Cons("```\r", ends))
    ensures Reread(Cons("```", Cons("```\r", ends))) == Cons("```", Cons("```", ends))
  {
    assert "```\r\r"[..4] == "```\r" && "```\r"[..3] == "```";
  }

  /** Inside a fence a line that does not close it is printed as it is. */
  lemma Verbatim(state: State, line: string, rest: List)
    requires state.fence.Some? && !state.prevBlank && !Closes(TrimStart(line), state.fence.value)
    ensures Rendered(state, Cons(line, rest)) == Cons(line, Rendered(state, rest))
  {}

  lemma OpenToTheEnd(lines: List, ends: List)
    requires ends == Cons("", Cons("", Nil)) && lines == Cons("```", Cons("```\r", ends))
    ensures Rendered(START, lines) == lines
  {
    var inside := State(false, false, false, false, Some(Marker('`', 3)));
    TicksOpen();
    Verbatim(inside, "", Nil);
    Verbatim(inside, "", Cons("", Nil));
    Verbatim(inside, "```\r", ends);
  }

  lemma ClosedWhenRead(ends: List)
    requires ends == Cons("", Cons("", Nil))
    ensures !Tidy(Cons("```", Cons("```", ends)), None, true)
  {
    TicksOpen();
    BlankRead();
    assert !Tidy(ends, None, false);
  }

  lemma TicksOpen()
    ensures TrimStart("```") == "```" && FenceOpen("```") == Some(Marker('`', 3))
    ensures Closes("```", Marker('`', 3)) && !Closes("", Marker('`', 3))
    ensures TrimStart("```\r") == "```\r" && !Closes("```\r", Marker('`', 3))
  {
    TicksLead("```", 3);
    TicksLead("```\r", 3);
    assert "```"[3..] == "";
  }

  lemma {:induction false} TicksLead(s: string, n: nat)
    requires n <= |s| && (forall i :: 0 <= i < n ==> s[i] == '`') && (n < |s| ==> s[n] != '`')
    ensures Lead(s, '`') == n
    decreases n
  {
    if n > 0 { TicksLead(s[1..], n - 1); }
  }

  // ---------------------------------------------------------------------
  // Prose is kept
  // ---------------------------------------------------------------------

  /** The lines outside fences that are not blank. */
  function Proses(lines: List, fence: Option<Marker>): seq<string> {
    match lines
    case Nil => []
    case Cons(line, rest) =>
      var start := TrimStart(line);
      if fence.Some? then Proses(rest, if Closes(start, fence.value) then None else fence)
      else if FenceOpen(start).Some? then Proses(rest, FenceOpen(start))
      else if start == "" then Proses(rest, None)
      else [line] + Proses(rest, None)
  }

  /** A line normalised, as it stands, indented, or quoted. */
  predicate IsPrintOf(printed: string, line: string) {
    printed == Normalized(line) || printed == "  " + Normalized(line) || printed == "> " + Normalized(line)
  }

  ghost predicate Prints(printed: seq<string>, lines: seq<string>) {
    |printed| == |lines| && forall k :: 0 <= k < |lines| ==> IsPrintOf(printed[k], lines[k])
  }

  lemma PrintsNext(printed: seq<string>, lines: seq<string>, p: string, line: string)
    requires Prints(printed, lines) && IsPrintOf(p, line)
    ensures Prints([p] + printed, [line] + lines)
  {}

  lemma PrefixedProsaic(prefix: string, prose: string)
    requires Prosaic(prose) && (prefix == "" || prefix == "  " || prefix == "> ")
    ensures Prosaic(TrimStart(prefix + prose))
  {
    if prefix == "  " {
      IndentedStays(prose);
    } else if prefix == "" {
      assert prefix + prose == prose;
    } else {
      QuotedStays(prose);
    }
  }

  /** A blank line printed before is no prose. */
  lemma ProsesBlankIf(b: bool, after: List)
    ensures Proses(BlankIf(b, after), None) == Proses(after, None)
  {
    BlankRead();
  }

  /** Outside fences every line of prose is printed, once and in order, and nothing else
    * but blank lines is.
    */
  lemma {:induction false} ProsePrinted(state: State, lines: List)
    ensures Prints(Proses(Rendered(state, lines), state.fence), Proses(lines, state.fence))
    decreases lines
  {
    if lines.Cons? {
      var line, rest := lines.line, lines.rest;
      var after := Rendered(Next(state, line), rest);
      ProsePrinted(Next(state, line), rest);
      if state.fence.Some? {
        FencedProse(state, line, rest);
      } else if FenceOpen(TrimStart(line)).Some? {
        PrintedOpening(state, line, after);
        ProsesBlankIf(!state.prevBlank, Cons(TrimStart(line), after));
      } else if Content(line) == "" {
        ContentBlank(line);
        PrintedBlank(state, line, after);
        ProsesBlankIf(!state.prevBlank, after);
      } else {
        ContentBlank(line);
        LineOfProse(state, line, rest);
      }
    }
  }

  lemma FencedProse(state: State, line: string, rest: List)
    requires state.fence.Some?
    ensures Proses(Rendered(state, Cons(line, rest)), state.fence) == Proses(Rendered(Next(state, line), rest), Next(state, line).fence)
  {}

  lemma ContentBlank(line: string)
    ensures Content(line) == "" <==> TrimStart(line) == ""
  {
    NormalizedIsNormal(line);
    if Normalized(line) != "" { TrimEndLeaves(Normalized(line)); }
  }

  lemma LineOfProse(state: State, line: string, rest: List)
    requires state.fence.None? && FenceOpen(TrimStart(line)).None? && TrimStart(line) != "" && Content(line) != ""
    requires var next := Next(state, line); Prints(Proses(Rendered(next, rest), next.fence), Proses(rest, next.fence))
    ensures Prints(Proses(Rendered(state, Cons(line, rest)), None), Proses(Cons(line, rest), None))
  {
    var prefix, after := Prefix(state, Content(line)), Rendered(Next(state, line), rest);
    var printed := prefix + Normalized(line);
    NormalizedIsNormal(line);
    NormalizedOpens(line);
    PrefixedProsaic(prefix, Normalized(line));
    NextProse(state, line);
    PrintedProse(state, line, after);
    ProsesBlankIf(SetApart(state, Content(line)), Cons(printed, after));
    assert prefix == "" ==> printed == Normalized(line);
    PrintsNext(Proses(after, None), Proses(rest, None), printed, line);
  }

  // ---------------------------------------------------------------------
  // What a line of prose continues
  // ---------------------------------------------------------------------

  function FenceAfter(before: seq<string>): Option<Marker> {
    if before == [] then None
    else
      var open, start := FenceAfter(before[..|before| - 1]), TrimStart(before[|before| - 1]);
      if open.None? then FenceOpen(start) else if Closes(start, open.value) then None else open
  }

  /** What the next line goes on with: told by the nearest line above that is an item or a
    * quotation, with none that is blank, a heading or of a fenced block in between.
    */
  datatype Continued = Nothing | AnItem | AQuote

  function ContinuedAfter(before: seq<string>): Continued {
    if before == [] then Nothing
    else
      var above, line := before[..|before| - 1], before[|before| - 1];
      var content := Content(line);
      if FenceAfter(above).Some? || FenceOpen(TrimStart(line)).Some? || content == "" then Nothing
      else if IsItem(content) then AnItem
      else if IsQuote(content) then AQuote
      else if IsHeading(content) then Nothing
      else ContinuedAfter(above)
  }

  /** A line that goes on with a quotation is quoted, unless it is quoted already or a
    * heading; one that goes on with an item is indented, unless it is one of these or an
    * item itself.
    */
  function Continuation(above: Continued, content: string): string {
    if IsQuote(content) || IsHeading(content) then ""
    else
      match above
      case Nothing => ""
      case AQuote => "> "
      case AnItem => if IsItem(content) then "" else "  "
  }

  /** A blank line, or none at all. */
  predicate BlankBefore(before: seq<string>) {
    before == [] ||
    var above, line := before[..|before| - 1], before[|before| - 1];
    FenceAfter(above).None? && FenceOpen(TrimStart(line)).None? && Content(line) == ""
  }

  predicate HeadingBefore(before: seq<string>) {
    before != [] &&
    var above, line := before[..|before| - 1], before[|before| - 1];
    FenceAfter(above).None? && FenceOpen(TrimStart(line)).None? && IsHeading(Content(line))
  }

  /** A line comes after a blank one where it did, after a heading, and where an item does
    * not go on with an item, nor a quotation with a quotation.
    */
  predicate ComesApart(before: seq<string>, content: string) {
    || BlankBefore(before) || HeadingBefore(before)
    || (IsItem(content) && !ContinuedAfter(before).AnItem?)
    || (IsQuote(content) && !ContinuedAfter(before).AQuote?)
  }

  /** How the lines outside fences, and those that open one, are to be printed, after those
    * before: whether a blank line comes first, and the line. One that opens a fence always
    * has a blank line first.
    */
  function Expected(before: seq<string>, lines: List): seq<(bool, string)>
    decreases lines
  {
    match lines
    case Nil => []
    case Cons(line, rest) =>
      var others, start, content := Expected(before + [line], rest), TrimStart(line), Content(line);
      if FenceAfter(before).Some? then others
      else if FenceOpen(start).Some? then [(true, start)] + others
      else if start == "" then others
      else [(ComesApart(before, content), Continuation(ContinuedAfter(before), content) + Normalized(line))] + others
  }

  /** The lines outside fences that are not blank, and those that open one, each with
    * whether a blank line, or nothing at all, comes before it.
    */
  function Spaced(lines: List, fence: Option<Marker>, blank: bool): seq<(bool, string)> {
    match lines
    case Nil => []
    case Cons(line, rest) =>
      var start := TrimStart(line);
      if fence.Some? then Spaced(rest, if Closes(start, fence.value) then None else fence, false)
      else if FenceOpen(start).Some? then [(blank, line)] + Spaced(rest, FenceOpen(start), false)
      else if start == "" then Spaced(rest, None, true)
      else [(blank, line)] + Spaced(rest, None, false)
  }

  function StateAfter(before: seq<string>): State {
    if before == [] then START else Next(StateAfter(before[..|before| - 1]), before[|before| - 1])
  }

  lemma {:induction false} StateTells(before: seq<string>)
    ensures var state := StateAfter(before);
      && state.fence == FenceAfter(before)
      && (state.fence.None? ==> (state.inQuote <==> ContinuedAfter(before).AQuote?))
      && (state.fence.None? ==> (state.inList <==> ContinuedAfter(before).AnItem?))
    decreases |before|
  {
    if before != [] {
      var above, line := before[..|before| - 1], before[|before| - 1];
      StateTells(above);
      StateTellsNext(StateAfter(above), ContinuedAfter(above), line);
    }
  }

  lemma StateTellsApart(before: seq<string>)
    ensures var state := StateAfter(before);
      state.fence.None? ==> (state.prevBlank <==> BlankBefore(before)) && (state.prevHeading <==> HeadingBefore(before))
  {
    if before != [] {
      var above, line := before[..|before| - 1], before[|before| - 1];
      StateTells(above);
      HeadingNext(StateAfter(above), line);
    }
  }

  lemma HeadingNext(state: State, line: string)
    ensures var next, content := Next(state, line), Content(line);
      var plain := state.fence.None? && FenceOpen(TrimStart(line)).None?;
      next.fence.None? ==>
        && (next.prevBlank <==> plain && content == "")
        && (next.prevHeading <==> plain && IsHeading(content))
  {
  }

  lemma StateTellsNext(state: State, above: Continued, line: string)
    requires state.fence.None? ==> (state.inQuote <==> above.AQuote?) && (state.inList <==> above.AnItem?)
    ensures Next(state, line).fence ==
      if state.fence.None? then FenceOpen(TrimStart(line))
      else if Closes(TrimStart(line), state.fence.value) then None else state.fence
    ensures var next, content := Next(state, line), Content(line);
      var plain := state.fence.None? && FenceOpen(TrimStart(line)).None? && content != "";
      next.fence.None? ==>
        && (next.inList <==> plain && (IsItem(content) || (!IsQuote(content) && !IsHeading(content) && above.AnItem?)))
        && (next.inQuote <==> plain && !IsItem(content)
                              && (IsQuote(content) || (!IsHeading(content) && above.AQuote?)))
  {
    NotTwoKinds(Content(line));
  }

  lemma NotTwoKinds(content: string)
    ensures !(IsQuote(content) && IsHeading(content)) && !(IsItem(content) && IsQuote(content))
  {
    if IsQuote(content) { assert content[0] == '>'; }
  }

  lemma PrefixTells(state: State, above: Continued, content: string)
    requires (state.inQuote <==> above.AQuote?) && (state.inList <==> above.AnItem?)
    ensures Prefix(state, content) == Continuation(above, content)
  {}

  /** Every line of prose, and every line that opens a fence, is printed, once and in
    * order: quoted, indented, or neither, by what it goes on with, and after a blank line
    * or not.
    */
  lemma {:induction false} PrintedAsExpected(before: seq<string>, lines: List)
    ensures var state := StateAfter(before);
      Spaced(Rendered(state, lines), FenceAfter(before), state.prevBlank) == Expected(before, lines)
    decreases lines
  {
    if lines.Cons? {
      var line, rest := lines.line, lines.rest;
      var state, longer := StateAfter(before), before + [line];
      assert longer[..|before|] == before;
      StateTells(before);
      StateTells(longer);
      StateTellsApart(before);
      PrintedAsExpected(longer, rest);
      var after := Rendered(Next(state, line), rest);
      if state.fence.Some? {
        FencedSpaced(state, line, rest);
      } else if FenceOpen(TrimStart(line)).Some? {
        PrintedOpening(state, line, after);
        SpacedLine(!state.prevBlank, state.prevBlank, TrimStart(line), after);
      } else if Content(line) == "" {
        ContentBlank(line);
        PrintedBlank(state, line, after);
        SpacedBlank(!state.prevBlank, state.prevBlank, after);
        NextProse(state, line);
      } else {
        ContentBlank(line);
        PrefixTells(state, ContinuedAfter(before), Content(line));
        ProseSpaced(state, line, rest);
      }
    }
  }

  lemma FencedSpaced(state: State, line: string, rest: List)
    requires state.fence.Some?
    ensures var next := Next(state, line);
      Spaced(Rendered(state, Cons(line, rest)), state.fence, state.prevBlank) == Spaced(Rendered(next, rest), next.fence, next.prevBlank)
  {}

  lemma SpacedLine(apart: bool, blank: bool, printed: string, after: List)
    requires TrimStart(printed) != ""
    ensures Spaced(BlankIf(apart, Cons(printed, after)), None, blank)
         == [(apart || blank, printed)] + Spaced(after, FenceOpen(TrimStart(printed)), false)
  {
    BlankRead();
  }

  lemma SpacedBlank(apart: bool, blank: bool, after: List)
    ensures Spaced(BlankIf(apart, after), None, blank) == Spaced(after, None, apart || blank)
  {
    BlankRead();
  }

  lemma ProseSpaced(state: State, line: string, rest: List)
    requires state.fence.None? && FenceOpen(TrimStart(line)).None? && Content(line) != ""
    ensures var content, next := Content(line), Next(state, line);
      Spaced(Rendered(state, Cons(line, rest)), None, state.prevBlank)
      == [(SetApart(state, content) || state.prevBlank, Prefix(state, content) + Normalized(line))]
         + Spaced(Rendered(next, rest), None, next.prevBlank)
  {
    var prefix, after := Prefix(state, Content(line)), Rendered(Next(state, line), rest);
    ContentBlank(line);
    NormalizedIsNormal(line);
    NormalizedOpens(line);
    PrefixedProsaic(prefix, Normalized(line));
    PrintedProse(state, line, after);
    NextProse(state, line);
    SpacedLine(SetApart(state, Content(line)), state.prevBlank, prefix + Normalized(line), after);
  }
}
