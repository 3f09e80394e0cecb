/** The command tokenizer: white space separates tokens, quotes and backslashes protect characters. */
module CommandText {
  import opened Characters
  import opened Options
  import opened Sequences

  predicate IsQuote(c: char) {
    c == '"' || c == '\''
  }

  const ESCAPE := '\\'

  // ----- The automaton -----

  datatype Scanner = Scanner(tokens: seq<string>, current: string, quote: Option<char>, escaped: bool)

  const START := Scanner([], "", None, false)

  function Flush(tokens: seq<string>, current: string): seq<string> {
    if current == "" then tokens else tokens + [current]
  }

  function Step(st: Scanner, c: char): Scanner {
    if st.escaped then st.(current := st.current + [c], escaped := false)
    else if c == ESCAPE then st.(escaped := true)
    else if st.quote.Some? then
      if c == st.quote.value then st.(quote := None) else st.(current := st.current + [c])
    else if IsQuote(c) then st.(quote := Some(c))
    else if IsSpace(c) then st.(tokens := Flush(st.tokens, st.current), current := "")
    else st.(current := st.current + [c])
  }

  function Run(st: Scanner, text: string): Scanner
    decreases |text|
  {
    if text == "" then st else Run(Step(st, text[0]), text[1..])
  }

  // The token list, and the quote left open if any.
  datatype Tokens = Tokens(list: seq<string>, openQuote: Option<char>)

  function Finish(st: Scanner): Tokens {
    Tokens(Flush(st.tokens, if st.escaped then st.current + [ESCAPE] else st.current), st.quote)
  }

  function Tokenize(text: string): Tokens {
    Finish(Run(START, text))
  }

  // ----- The loop -----

  datatype Diagnostic = Diagnostic(code: string, subject: string)

  function OpenQuoteDiagnostics(quote: Option<char>): seq<Diagnostic> {
    if quote.Some? then [Diagnostic("unterminated_quote", [quote.value])] else []
  }

  lemma {:induction false} RunConcat(st: Scanner, a: string, b: string)
    ensures Run(st, a + b) == Run(Run(st, a), b)
    decreases |a|
  {
    if a == "" {
      assert a + b == b;
    } else {
      RunConcat(Step(st, a[0]), a[1..], b);
      assert (a + b)[1..] == a[1..] + b;
    }
  }

  lemma RunSnoc(st: Scanner, text: string, i: nat)
    requires i < |text|
    ensures Run(st, text[..i + 1]) == Step(Run(st, text[..i]), text[i])
  {
    RunConcat(st, text[..i], [text[i]]);
    assert text[..i + 1] == text[..i] + [text[i]];
    assert [text[i]][1..] == "";
  }

  method TokenizeCommand(rawText: string) returns (tokens: seq<string>, diagnostics: seq<Diagnostic>)
    ensures tokens == Tokenize(rawText).list
    ensures diagnostics == OpenQuoteDiagnostics(Tokenize(rawText).openQuote)
  {
    tokens := [];
    diagnostics := [];
    var current := "";
    var quote: Option<char> := None;
    var escaped := false;
    for i := 0 to |rawText|
      invariant Scanner(tokens, current, quote, escaped) == Run(START, rawText[..i])
      invariant diagnostics == []
    {
      var c := rawText[i];
      RunSnoc(START, rawText, i);
      if escaped {
        current := current + [c];
        escaped := false;
        continue;
      }
      if c == ESCAPE {
        escaped := true;
        continue;
      }
      if quote.Some? {
        if c == quote.value {
          quote := None;
        } else {
          current := current + [c];
        }
        continue;
      }
      if IsQuote(c) {
        quote := Some(c);
        continue;
      }
      if IsSpace(c) {
        if |current| > 0 {
          tokens := tokens + [current];
          current := "";
        }
        continue;
      }
      current := current + [c];
    }
    assert rawText[..|rawText|] == rawText;
    if escaped {
      current := current + [ESCAPE];
    }
    if |current| > 0 {
      tokens := tokens + [current];
    }
    if quote.Some? {
      diagnostics := diagnostics + [Diagnostic("unterminated_quote", [quote.value])];
    }
  }

  // ----- Splitting at unprotected white space -----

  lemma {:induction false} EarlierTokensStay(earlier: seq<string>, st: Scanner, text: string)
    ensures Run(st.(tokens := earlier + st.tokens), text)
         == Run(st, text).(tokens := earlier + Run(st, text).tokens)
    decreases |text|
  {
    if text != "" {
      var next := Step(st, text[0]);
      if next.tokens != st.tokens {
        Regroup(earlier, st.tokens, [st.current]);
      }
      assert Step(st.(tokens := earlier + st.tokens), text[0]) == next.(tokens := earlier + next.tokens);
      EarlierTokensStay(earlier, next, text[1..]);
    }
  }

  // Whether text ends outside quotes and escapes.
  predicate EndsUnprotected(text: string) {
    Run(START, text).quote.None? && !Run(START, text).escaped
  }

  /** Splitting at white space outside quotes and escapes splits the token list. */
  lemma SplitsAtSpace(a: string, space: char, b: string)
    requires EndsUnprotected(a) && IsSpace(space)
    ensures Tokenize(a + [space] + b).list == Tokenize(a).list + Tokenize(b).list
    ensures Tokenize(a + [space] + b).openQuote == Tokenize(b).openQuote && Tokenize(a).openQuote.None?
  {
    var st := Run(START, a);
    RunConcat(START, a + [space], b);
    RunConcat(START, a, [space]);
    assert [space][1..] == "";
    var done := Tokenize(a).list;
    assert Run(START, a + [space]) == Step(st, space) == START.(tokens := done);
    EarlierTokensStay(done, START, b);
    assert START.(tokens := done + START.tokens) == START.(tokens := done);
    var rest := Run(START, b);
    assert Run(START, a + [space] + b) == rest.(tokens := done + rest.tokens);
    var last := if rest.escaped then rest.current + [ESCAPE] else rest.current;
    Regroup(done, rest.tokens, [last]);
  }

  // ----- Writing tokens down -----

  // How a stretch of a token may be written: as it is, when it holds no white space, quote or backslash;
  // with a backslash before every character; or between quotes of one kind, with a backslash before that
  // quote and before backslashes.
  datatype Style = Plainly | Backslashes | Quotes(mark: char)

  predicate ValidStyle(style: Style, text: string) {
    match style
    case Plainly => forall i :: 0 <= i < |text| ==> IsPlain(text[i])
    case Backslashes => true
    case Quotes(mark) => mark == '"' || mark == '\''
  }

  predicate IsPlain(c: char) {
    !IsSpace(c) && c != '"' && c != '\'' && c != '\\'
  }

  function EscapeEach(token: string): string {
    if token == "" then "" else [ESCAPE, token[0]] + EscapeEach(token[1..])
  }

  function EscapeMark(mark: char, token: string): string {
    if token == "" then ""
    else
      (if token[0] == mark || token[0] == ESCAPE then [ESCAPE, token[0]] else [token[0]]) + EscapeMark(mark, token[1..])
  }

  function Write(style: Style, token: string): string {
    match style
    case Plainly => token
    case Backslashes => EscapeEach(token)
    case Quotes(mark) => [mark] + EscapeMark(mark, token) + [mark]
  }

  datatype Segment = Segment(style: Style, text: string)

  // White space, then a token written in segments.
  datatype Piece = Piece(gap: string, segments: seq<Segment>)

  function WriteToken(segments: seq<Segment>): string {
    if segments == [] then "" else Write(segments[0].style, segments[0].text) + WriteToken(segments[1..])
  }

  function TokenOf(segments: seq<Segment>): string {
    if segments == [] then "" else segments[0].text + TokenOf(segments[1..])
  }

  function WriteLine(pieces: seq<Piece>): string {
    if pieces == [] then "" else pieces[0].gap + WriteToken(pieces[0].segments) + WriteLine(pieces[1..])
  }

  function WrittenTokens(pieces: seq<Piece>): seq<string> {
    if pieces == [] then [] else [TokenOf(pieces[0].segments)] + WrittenTokens(pieces[1..])
  }

  predicate Blank(s: string) {
    forall i :: 0 <= i < |s| ==> IsSpace(s[i])
  }

  predicate Writable(p: Piece) {
    && TokenOf(p.segments) != "" && Blank(p.gap)
    && forall i :: 0 <= i < |p.segments| ==> ValidStyle(p.segments[i].style, p.segments[i].text)
  }

  lemma RunPair(st: Scanner, c: char, text: string)
    requires !st.escaped
    ensures Run(st, [ESCAPE, c] + text) == Run(st.(current := st.current + [c]), text)
  {
    var rest := [c] + text;
    assert [ESCAPE, c] + text == [ESCAPE] + rest;
    assert ([ESCAPE] + rest)[1..] == rest && rest[1..] == text;
  }

  lemma {:induction false} RunEscapeEach(st: Scanner, token: string)
    requires !st.escaped
    ensures Run(st, EscapeEach(token)) == st.(current := st.current + token)
    decreases |token|
  {
    if token == "" {
      assert st.current + token == st.current;
    } else {
      RunPair(st, token[0], EscapeEach(token[1..]));
      RunEscapeEach(st.(current := st.current + [token[0]]), token[1..]);
      Uncons(token);
      Regroup(st.current, [token[0]], token[1..]);
    }
  }

  lemma RunPlainQuoted(st: Scanner, c: char, text: string)
    requires !st.escaped && st.quote.Some? && c != st.quote.value && c != ESCAPE
    ensures Run(st, [c] + text) == Run(st.(current := st.current + [c]), text)
  {
    assert ([c] + text)[1..] == text;
  }

  lemma {:induction false} RunEscapeMark(st: Scanner, mark: char, token: string)
    requires !st.escaped && st.quote == Some(mark) && IsQuote(mark)
    ensures Run(st, EscapeMark(mark, token)) == st.(current := st.current + token)
    decreases |token|
  {
    hide Run;
    if token == "" {
      RunNothing(st);
      assert st.current + token == st.current;
    } else {
      var next := st.(current := st.current + [token[0]]);
      if token[0] == mark || token[0] == ESCAPE {
        RunPair(st, token[0], EscapeMark(mark, token[1..]));
      } else {
        RunPlainQuoted(st, token[0], EscapeMark(mark, token[1..]));
      }
      RunEscapeMark(next, mark, token[1..]);
      Uncons(token);
      Regroup(st.current, [token[0]], token[1..]);
    }
  }

  lemma RunNothing(st: Scanner)
    ensures Run(st, "") == st
  {}

  lemma RunOne(st: Scanner, c: char)
    ensures Run(st, [c]) == Step(st, c)
  {
    assert [c][1..] == "";
  }

  lemma {:induction false} RunPlain(st: Scanner, text: string)
    requires !st.escaped && st.quote.None? && forall i :: 0 <= i < |text| ==> IsPlain(text[i])
    ensures Run(st, text) == st.(current := st.current + text)
    decreases |text|
  {
    if text == "" {
      assert st.current + text == st.current;
    } else {
      RunPlain(st.(current := st.current + [text[0]]), text[1..]);
      Uncons(text);
      Regroup(st.current, [text[0]], text[1..]);
    }
  }

  // Reading a written stretch adds it to the current token.
  lemma RunWritten(st: Scanner, style: Style, token: string)
    requires !st.escaped && st.quote.None? && ValidStyle(style, token)
    ensures Run(st, Write(style, token)) == st.(current := st.current + token)
  {
    hide Run;
    match style
    case Plainly => RunPlain(st, token);
    case Backslashes => RunEscapeEach(st, token);
    case Quotes(mark) =>
      var inside := st.(quote := Some(mark));
      RunConcat(st, [mark] + EscapeMark(mark, token), [mark]);
      RunConcat(st, [mark], EscapeMark(mark, token));
      RunOne(st, mark);
      RunEscapeMark(inside, mark, token);
      RunOne(inside.(current := st.current + token), mark);
  }

  lemma {:induction false} RunSegments(st: Scanner, segments: seq<Segment>)
    requires !st.escaped && st.quote.None?
    requires forall i :: 0 <= i < |segments| ==> ValidStyle(segments[i].style, segments[i].text)
    ensures Run(st, WriteToken(segments)) == st.(current := st.current + TokenOf(segments))
    decreases |segments|
  {
    hide Run, Write, ValidStyle;
    if segments == [] {
      RunNothing(st);
      assert st.current + "" == st.current;
    } else {
      var first := segments[0];
      var next := st.(current := st.current + first.text);
      RunWritten(st, first.style, first.text);
      RunConcat(st, Write(first.style, first.text), WriteToken(segments[1..]));
      RunSegments(next, segments[1..]);
      Regroup(st.current, first.text, TokenOf(segments[1..]));
    }
  }

  lemma {:induction false} RunBlank(st: Scanner, gap: string)
    requires !st.escaped && st.quote.None? && Blank(gap)
    ensures Run(st, gap) == if gap == "" then st else st.(tokens := Flush(st.tokens, st.current), current := "")
    decreases |gap|
  {
    if gap != "" {
      RunBlank(Step(st, gap[0]), gap[1..]);
    }
  }

  lemma {:induction false} RunLine(st: Scanner, pieces: seq<Piece>)
    requires !st.escaped && st.quote.None?
    requires forall i :: 0 <= i < |pieces| ==> Writable(pieces[i])
    requires forall i :: 0 <= i < |pieces| && (i > 0 || st.current != "") ==> pieces[i].gap != ""
    ensures Finish(Run(st, WriteLine(pieces))) == Tokens(Flush(st.tokens, st.current) + WrittenTokens(pieces), None)
    ensures !Run(st, WriteLine(pieces)).escaped && Run(st, WriteLine(pieces)).quote.None?
    decreases |pieces|
  {
    hide Run, WriteToken, TokenOf, ValidStyle;
    if pieces == [] {
      RunNothing(st);
    } else {
      var p := pieces[0];
      var token := TokenOf(p.segments);
      var flushed := Scanner(Flush(st.tokens, st.current), "", None, false);
      RunBlank(st, p.gap);
      RunSegments(flushed, p.segments);
      var next := flushed.(current := token);
      assert flushed.current + token == token;
      RunConcat(st, p.gap, WriteToken(p.segments));
      RunConcat(st, p.gap + WriteToken(p.segments), WriteLine(pieces[1..]));
      RunLine(next, pieces[1..]);
      Regroup(flushed.tokens, [token], WrittenTokens(pieces[1..]));
    }
  }

  /**
   Any list of non-empty tokens, each written in stretches that are plain, escaped or quoted, with white
   space between the tokens, reads back as exactly that list with no quote left open.
   */
  lemma WrittenTokensReadBack(pieces: seq<Piece>, tail: string)
    requires forall i :: 0 <= i < |pieces| ==> Writable(pieces[i]) && (i > 0 ==> pieces[i].gap != "")
    requires Blank(tail)
    ensures Tokenize(WriteLine(pieces) + tail) == Tokens(WrittenTokens(pieces), None)
  {
    hide Run;
    RunLine(START, pieces);
    var st := Run(START, WriteLine(pieces));
    RunConcat(START, WriteLine(pieces), tail);
    RunBlank(st, tail);
    assert [] + WrittenTokens(pieces) == WrittenTokens(pieces);
  }

  // ----- Which token lists occur -----

  predicate NoneEmpty(tokens: seq<string>) {
    forall i :: 0 <= i < |tokens| ==> tokens[i] != ""
  }

  lemma {:induction false} RunNoneEmpty(st: Scanner, text: string)
    requires NoneEmpty(st.tokens)
    ensures NoneEmpty(Run(st, text).tokens)
    decreases |text|
  {
    if text != "" {
      RunNoneEmpty(Step(st, text[0]), text[1..]);
    }
  }

  function Pieces(tokens: seq<string>): (pieces: seq<Piece>)
    ensures |pieces| == |tokens|
    ensures forall i :: 0 <= i < |tokens| ==> pieces[i] == Piece(" ", [Segment(Backslashes, tokens[i])])
  {
    seq(|tokens|, i requires 0 <= i < |tokens| => Piece(" ", [Segment(Backslashes, tokens[i])]))
  }

  lemma {:induction false} PiecesTokens(pieces: seq<Piece>, tokens: seq<string>)
    requires |pieces| == |tokens| && forall i :: 0 <= i < |tokens| ==> TokenOf(pieces[i].segments) == tokens[i]
    ensures WrittenTokens(pieces) == tokens
  {
    if tokens != [] {
      PiecesTokens(pieces[1..], tokens[1..]);
      Uncons(tokens);
    }
  }

  lemma OneSegment(style: Style, text: string)
    ensures TokenOf([Segment(style, text)]) == text
  {
    assert [Segment(style, text)][1..] == [];
    assert text + "" == text;
  }

  /** The lists the tokenizer can produce are exactly those without an empty token. */
  lemma ProducibleLists(tokens: seq<string>)
    ensures (exists text :: Tokenize(text).list == tokens) <==> NoneEmpty(tokens)
  {
    hide Run;
    if NoneEmpty(tokens) {
      forall i | 0 <= i < |tokens| ensures TokenOf(Pieces(tokens)[i].segments) == tokens[i] {
        OneSegment(Backslashes, tokens[i]);
      }
      PiecesTokens(Pieces(tokens), tokens);
      WrittenTokensReadBack(Pieces(tokens), "");
      assert Tokenize(WriteLine(Pieces(tokens)) + "").list == tokens;
    }
    if text :| Tokenize(text).list == tokens {
      RunNoneEmpty(START, text);
    }
  }

  // ----- Text without quotes and backslashes -----

  datatype Span = Span(start: nat, end: nat)

  // A longest stretch of text without white space.
  predicate MaximalRun(text: string, span: Span) {
    && span.start < span.end <= |text|
    && (forall i :: span.start <= i < span.end ==> !IsSpace(text[i]))
    && (span.start == 0 || IsSpace(text[span.start - 1]))
    && (span.end == |text| || IsSpace(text[span.end]))
  }

  ghost predicate Inside(i: int, spans: seq<Span>) {
    exists k :: 0 <= k < |spans| && spans[k].start <= i < spans[k].end
  }

  // The runs found so far are the tokens so far, in order.
  ghost predicate FoundRuns(text: string, spans: seq<Span>, tokens: seq<string>) {
    && |spans| == |tokens|
    && (forall k :: 0 <= k < |spans| ==>
          MaximalRun(text, spans[k]) && tokens[k] == text[spans[k].start..spans[k].end])
    && forall k, l :: 0 <= k < l < |spans| ==> spans[k].end <= spans[l].start
  }

  // Between two characters of plain text, with the current run beginning at start.
  ghost predicate Midway(text: string, spans: seq<Span>, st: Scanner, start: nat, i: nat) {
    && start <= i <= |text| && st.quote.None? && !st.escaped
    && FoundRuns(text, spans, st.tokens) && (forall k :: 0 <= k < |spans| ==> spans[k].end <= start)
    && st.current == text[start..i] && (forall j :: start <= j < i ==> !IsSpace(text[j]))
    && (start == 0 || IsSpace(text[start - 1]))
    && forall j :: 0 <= j < start ==> IsSpace(text[j]) || Inside(j, spans)
  }

  lemma PlainStep(text: string, spans: seq<Span>, st: Scanner, start: nat, i: nat)
    returns (spans': seq<Span>, start': nat)
    requires Midway(text, spans, st, start, i) && i < |text|
    requires text[i] != '"' && text[i] != '\'' && text[i] != '\\'
    ensures Midway(text, spans', Step(st, text[i]), start', i + 1)
  {
    spans', start' := spans, start;
    if IsSpace(text[i]) {
      spans', start' := EndRun(text, spans, st, start, i);
      start' := i + 1;
    } else {
      assert text[start..i + 1] == text[start..i] + [text[i]];
    }
  }

  // At white space or the end of the text the current run is complete.
  lemma EndRun(text: string, spans: seq<Span>, st: Scanner, start: nat, i: nat)
    returns (spans': seq<Span>, start': nat)
    requires Midway(text, spans, st, start, i) && (i == |text| || IsSpace(text[i]))
    ensures FoundRuns(text, spans', Flush(st.tokens, st.current))
    ensures forall k :: 0 <= k < |spans'| ==> spans'[k].end <= i
    ensures forall j :: 0 <= j < i ==> IsSpace(text[j]) || Inside(j, spans')
    ensures start' == i
  {
    start' := i;
    spans' := spans;
    if start < i {
      var run := Span(start, i);
      spans' := spans + [run];
      forall j | 0 <= j < i ensures IsSpace(text[j]) || Inside(j, spans') {
        if start <= j {
          assert spans'[|spans|].start <= j < spans'[|spans|].end;
        } else if Inside(j, spans) {
          var k :| 0 <= k < |spans| && spans[k].start <= j < spans[k].end;
          assert spans'[k] == spans[k];
        }
      }
    }
  }

  /**
   A text without quotes and backslashes tokenizes to its maximal runs of characters other than white space,
   in order, and to nothing else.
   */
  lemma PlainTextTokens(text: string) returns (spans: seq<Span>)
    requires forall i :: 0 <= i < |text| ==> text[i] != '"' && text[i] != '\'' && text[i] != '\\'
    ensures FoundRuns(text, spans, Tokenize(text).list) && Tokenize(text).openQuote == None
    ensures forall i :: 0 <= i < |text| ==> (Inside(i, spans) <==> !IsSpace(text[i]))
  {
    hide Midway, Run, Step;
    spans := [];
    var start, i := 0, 0;
    RunNothing(START);
    MidwayAtStart(text);
    assert text[..0] == "";
    while i < |text|
      invariant i <= |text| && Midway(text, spans, Run(START, text[..i]), start, i)
    {
      RunSnoc(START, text, i);
      spans, start := PlainStep(text, spans, Run(START, text[..i]), start, i);
      i := i + 1;
    }
    assert text[..|text|] == text;
    spans := FinishRuns(text, spans, Run(START, text), start);
  }

  lemma MidwayAtStart(text: string)
    ensures Midway(text, [], START, 0, 0)
  {}

  lemma FinishRuns(text: string, spans: seq<Span>, st: Scanner, start: nat) returns (spans': seq<Span>)
    requires Midway(text, spans, st, start, |text|)
    ensures FoundRuns(text, spans', Finish(st).list) && Finish(st).openQuote == None
    ensures forall i :: 0 <= i < |text| ==> (Inside(i, spans') <==> !IsSpace(text[i]))
  {
    var end;
    spans', end := EndRun(text, spans, st, start, |text|);
    forall i | 0 <= i < |text| && Inside(i, spans') ensures !IsSpace(text[i]) {
      var k :| 0 <= k < |spans'| && spans'[k].start <= i < spans'[k].end;
      assert MaximalRun(text, spans'[k]);
    }
  }

  // ----- Quotes and backslashes left open -----

  /** A backslash at the very end stands for itself, as two would. */
  lemma LoneBackslashStays(a: string)
    requires EndsUnprotected(a)
    ensures Tokenize(a + "\\") == Tokenize(a + "\\\\")
    ensures Tokenize("\\") == Tokens(["\\"], None)
  {
    hide Run;
    var st := Run(START, a);
    var kept := st.(current := st.current + [ESCAPE]);
    RunConcat(START, a, [ESCAPE]);
    RunOne(st, ESCAPE);
    RunConcat(START, a, [ESCAPE, ESCAPE] + "");
    RunPair(st, ESCAPE, "");
    RunNothing(kept);
    assert a + "\\" == a + [ESCAPE] && a + "\\\\" == a + ([ESCAPE, ESCAPE] + "");
    assert Finish(Run(START, a + "\\")) == Finish(kept);
    RunOne(START, ESCAPE);
    assert Tokenize([ESCAPE]) == Tokens([] + ["" + [ESCAPE]], None);
    assert "\\" == [ESCAPE] == "" + [ESCAPE];
  }

  /** A quote left open keeps what follows it as one token and is reported. */
  lemma OpenQuoteKeepsText(mark: char, text: string)
    requires (mark == '"' || mark == '\'') && forall i :: 0 <= i < |text| ==> text[i] != mark && text[i] != '\\'
    ensures Tokenize([mark] + text) == Tokens(if text == "" then [] else [text], Some(mark))
    ensures OpenQuoteDiagnostics(Tokenize([mark] + text).openQuote) == [Diagnostic("unterminated_quote", [mark])]
  {
    hide Run;
    RunConcat(START, [mark], text);
    RunOne(START, mark);
    NothingToEscape(mark, text);
    RunEscapeMark(START.(quote := Some(mark)), mark, text);
    assert "" + text == text;
  }

  lemma {:induction false} NothingToEscape(mark: char, text: string)
    requires forall i :: 0 <= i < |text| ==> text[i] != mark && text[i] != ESCAPE
    ensures EscapeMark(mark, text) == text
  {
    if text != "" {
      NothingToEscape(mark, text[1..]);
      Uncons(text);
    }
  }
}
