/**
 The flag parser: a lookahead consumer that sorts the tokens of a command into prompt words and
 flags, and a scalar-or-array store for the flag values.
 */
module CommandFlags {
  import opened Options
  import opened Sequences
  import opened Strings
  import opened Characters
  import opened CommandText

  // ----- Text helpers -----

  function TrimStart(s: string): string {
    if s != "" && IsSpace(s[0]) then TrimStart(s[1..]) else s
  }

  function TrimEnd(s: string): string {
    if s != "" && IsSpace(s[|s| - 1]) then TrimEnd(s[..|s| - 1]) else s
  }

  function Trim(s: string): string {
    TrimEnd(TrimStart(s))
  }

  function LowerChar(c: char): char {
    if 'A' <= c <= 'Z' then (c as int + 32) as char else c
  }

  function Lower(s: string): (r: string)
    ensures |r| == |s|
  {
    seq(|s|, i requires 0 <= i < |s| => LowerChar(s[i]))
  }

  predicate IsDigit(c: char) {
    '0' <= c <= '9'
  }

  predicate Digits(s: string) {
    s != "" && forall i :: 0 <= i < |s| ==> IsDigit(s[i])
  }

  // ^-?\d+(\.\d+)?$
  predicate IsNumeral(s: string) {
    var body := if s != "" && s[0] == '-' then s[1..] else s;
    var dot := IndexOf(body, ".", 0);
    if dot < 0 then Digits(body) else Digits(body[..dot]) && Digits(body[dot + 1..])
  }

  // words.join(" ")
  function JoinWords(words: seq<string>): string {
    if |words| == 0 then "" else if |words| == 1 then words[0] else words[0] + " " + JoinWords(words[1..])
  }

  // ----- Flag values -----

  // A number is kept as the numeral it was parsed from; how it prints is up to Printer.
  datatype ArgValue = Bool(b: bool) | Numeral(text: string) | Text(text: string)

  datatype FlagValue = Scalar(value: ArgValue) | Array(values: seq<ArgValue>)

  function ParseFlagValue(value: string): ArgValue {
    var trimmed := Trim(value);
    if IsNumeral(trimmed) then Numeral(trimmed)
    else if Lower(trimmed) == "true" then Bool(true)
    else if Lower(trimmed) == "false" then Bool(false)
    else Text(trimmed)
  }

  function NormalizeFlagName(name: string): string {
    Lower(Trim(name))
  }

  const KNOWN_FLAGS := {"approval", "executor", "file", "label", "line", "network", "path", "range", "runner", "scope",
                        "timeout", "url"}
  const SINGLE_VALUE_FLAGS := {"approval", "executor", "line", "network", "range", "runner", "timeout"}

  // ----- What each token is used for -----

  datatype Use =
    | Skipped(token: string)                          // an empty token
    | Word(token: string)                             // a word of the prompt
    | EmptyFlag(token: string)                        // a flag without a name, reported
    | Flag(token: string, name: string, value: ArgValue)
    | FlagWithNext(token: string, name: string, valueToken: string)

  function TokensOf(u: Use): seq<string> {
    if u.FlagWithNext? then [u.token, u.valueToken] else [u.token]
  }

  predicate IsFlag(u: Use) {
    u.Flag? || u.FlagWithNext?
  }

  function ValueOf(u: Use): ArgValue
    requires IsFlag(u)
  {
    if u.Flag? then u.value else ParseFlagValue(u.valueToken)
  }

  predicate LooksLikeFlag(token: string) {
    "--" <= token
  }

  function RawName(token: string): string
    requires LooksLikeFlag(token)
  {
    var withoutPrefix := token[2..];
    var equalsIndex := IndexOf(withoutPrefix, "=", 0);
    if equalsIndex >= 0 then withoutPrefix[..equalsIndex] else withoutPrefix
  }

  function InlineValue(token: string): Option<string>
    requires LooksLikeFlag(token)
  {
    var withoutPrefix := token[2..];
    var equalsIndex := IndexOf(withoutPrefix, "=", 0);
    if equalsIndex >= 0 then Some(withoutPrefix[equalsIndex + 1..]) else None
  }

  // How the parser uses the token at its cursor, looking at most one token ahead.
  function NextUse(tokens: seq<string>): Use
    requires tokens != []
  {
    var token := tokens[0];
    if token == "" then Skipped(token)
    else if !LooksLikeFlag(token) || token == "--" then Word(token)
    else
      var name := NormalizeFlagName(RawName(token));
      if name == "" then EmptyFlag(token)
      else
        match InlineValue(token)
        case Some(value) => Flag(token, name, ParseFlagValue(value))
        case None =>
          if |tokens| > 1 && tokens[1] != "" && !LooksLikeFlag(tokens[1])
          then FlagWithNext(token, name, tokens[1])
          else Flag(token, name, Bool(true))
  }

  function Uses(tokens: seq<string>): seq<Use>
    decreases |tokens|
  {
    if tokens == [] then []
    else
      var u := NextUse(tokens);
      [u] + Uses(tokens[|TokensOf(u)|..])
  }

  function AllTokens(uses: seq<Use>): seq<string> {
    if uses == [] then [] else TokensOf(uses[0]) + AllTokens(uses[1..])
  }

  /** Every token is used exactly once, in order. */
  lemma {:induction false} EveryTokenUsedOnce(tokens: seq<string>)
    ensures AllTokens(Uses(tokens)) == tokens
    decreases |tokens|
  {
    if tokens != [] {
      var n := |TokensOf(NextUse(tokens))|;
      EveryTokenUsedOnce(tokens[n..]);
      assert TokensOf(NextUse(tokens)) == tokens[..n];
    }
  }

  function Words(uses: seq<Use>): seq<string> {
    if uses == [] then [] else WordIn(uses[0]) + Words(uses[1..])
  }

  function WordIn(u: Use): seq<string> {
    if u.Word? then [u.token] else []
  }

  // The values given for a flag, in the order they were given.
  function Occurrences(uses: seq<Use>, name: string): seq<ArgValue> {
    if uses == [] then [] else ValueIn(uses[0], name) + Occurrences(uses[1..], name)
  }

  function ValueIn(u: Use, name: string): seq<ArgValue> {
    if IsFlag(u) && u.name == name then [ValueOf(u)] else []
  }

  function UseDiagnostics(u: Use, seenBefore: bool): seq<Diagnostic> {
    match u
    case EmptyFlag(token) => [Diagnostic("empty_flag", token)]
    case Skipped(_) => []
    case Word(_) => []
    case _ =>
      (if u.name in KNOWN_FLAGS then [] else [Diagnostic("unknown_flag", u.name)])
      + (if seenBefore && u.name in SINGLE_VALUE_FLAGS then [Diagnostic("duplicate_flag", u.name)] else [])
  }

  predicate Repeats(before: seq<Use>, u: Use) {
    IsFlag(u) && Occurrences(before, u.name) != []
  }

  function AllDiagnostics(before: seq<Use>, uses: seq<Use>): seq<Diagnostic>
    decreases |uses|
  {
    if uses == [] then []
    else UseDiagnostics(uses[0], Repeats(before, uses[0])) + AllDiagnostics(before + [uses[0]], uses[1..])
  }

  // ----- The parser -----

  function ValuesOf(flags: map<string, FlagValue>, name: string): seq<ArgValue> {
    if name !in flags then []
    else
      match flags[name]
      case Scalar(value) => [value]
      case Array(values) => values
  }

  class CommandParser {
    var promptTokens: seq<string>
    var flags: map<string, FlagValue>
    var diagnostics: seq<Diagnostic>

    constructor ()
      ensures promptTokens == [] && flags == map[] && diagnostics == []
    {
      promptTokens, flags, diagnostics := [], map[], [];
    }

    // A stored array is never empty, and the store lists each name's values in order.
    ghost predicate Stores(uses: seq<Use>)
      reads this
    {
      && (forall name :: name in flags ==> ValuesOf(flags, name) != [])
      && forall name :: ValuesOf(flags, name) == Occurrences(uses, name)
    }

    method AppendFlagValue(name: string, value: ArgValue)
      requires forall n :: n in flags ==> ValuesOf(flags, n) != []
      modifies this`flags
      ensures forall n :: n in flags ==> ValuesOf(flags, n) != []
      ensures forall n ::
                ValuesOf(flags, n) == if n == name then old(ValuesOf(flags, n)) + [value] else old(ValuesOf(flags, n))
    {
      if name !in flags {
        flags := flags[name := Scalar(value)];
      } else {
        match flags[name]
        case Array(values) => flags := flags[name := Array(values + [value])];
        case Scalar(existing) => flags := flags[name := Array([existing, value])];
      }
    }

    // Everything recorded so far comes from these uses.
    ghost predicate Parsed(uses: seq<Use>)
      reads this
    {
      Stores(uses) && promptTokens == Words(uses) && diagnostics == AllDiagnostics([], uses)
    }

    method RecordWord(token: string, ghost done: seq<Use>)
      requires Parsed(done)
      modifies this`promptTokens
      ensures Parsed(done + [Word(token)])
    {
      Extend(done, Word(token));
      promptTokens := promptTokens + [token];
    }

    method RecordEmptyFlag(token: string, ghost done: seq<Use>)
      requires Parsed(done)
      modifies this`diagnostics
      ensures Parsed(done + [EmptyFlag(token)])
    {
      Extend(done, EmptyFlag(token));
      diagnostics := diagnostics + [Diagnostic("empty_flag", token)];
    }

    // The warnings about one more flag.
    method ReportFlag(name: string, ghost done: seq<Use>, ghost u: Use)
      requires Parsed(done) && IsFlag(u) && u.name == name
      modifies this`diagnostics
      ensures diagnostics == AllDiagnostics([], done + [u])
    {
      hide AllDiagnostics, Occurrences, Words, ParseFlagValue;
      Extend(done, u);
      assert name in flags <==> Repeats(done, u);
      if name !in KNOWN_FLAGS {
        diagnostics := diagnostics + [Diagnostic("unknown_flag", name)];
      }
      if name in flags && name in SINGLE_VALUE_FLAGS {
        diagnostics := diagnostics + [Diagnostic("duplicate_flag", name)];
      }
    }

    method RecordFlag(name: string, value: ArgValue, ghost done: seq<Use>, ghost u: Use)
      requires Parsed(done) && IsFlag(u) && u.name == name && ValueOf(u) == value
      modifies this`flags, this`diagnostics
      ensures Parsed(done + [u])
    {
      hide AllDiagnostics, Occurrences, Words, ParseFlagValue, UseDiagnostics, Repeats, ValuesOf;
      Extend(done, u);
      ReportFlag(name, done, u);
      AppendFlagValue(name, value);
    }

    method ParseCommandTokens(tokens: seq<string>) returns (prompt: string)
      requires promptTokens == [] && flags == map[] && diagnostics == []
      modifies this
      ensures Parsed(Uses(tokens))
      ensures prompt == Trim(JoinWords(Words(Uses(tokens))))
    {
      hide Parsed, Uses, ParseFlagValue, RawName, InlineValue, NormalizeFlagName;
      ghost var done: seq<Use> := [];
      NothingParsed();
      var index := 0;
      assert tokens[0..] == tokens;
      while index < |tokens|
        invariant index <= |tokens|
        invariant Uses(tokens) == done + Uses(tokens[index..])
        invariant Parsed(done)
      {
        ghost var use := NextUse(tokens[index..]);
        ghost var before := done;
        UsesStep(tokens, index, done);
        done := done + [use];
        var token := tokens[index];
        index := index + 1;
        if token == "" {
          SkipEmpty(before);
          continue;
        }
        if !LooksLikeFlag(token) || token == "--" {
          RecordWord(token, before);
          continue;
        }
        var name := NormalizeFlagName(RawName(token));
        if name == "" {
          RecordEmptyFlag(token, before);
          continue;
        }
        var value := Bool(true);
        if InlineValue(token).Some? {
          value := ParseFlagValue(InlineValue(token).value);
        } else if index < |tokens| && tokens[index] != "" && !LooksLikeFlag(tokens[index]) {
          value := ParseFlagValue(tokens[index]);
          index := index + 1;
        }
        RecordFlag(name, value, before, use);
      }
      assert tokens[|tokens|..] == [];
      assert Uses(tokens) == done;
      ParsedWords(done);
      prompt := Trim(JoinWords(promptTokens));
    }

    lemma ParsedWords(uses: seq<Use>)
      requires Parsed(uses)
      ensures promptTokens == Words(uses)
    {}

    lemma NothingParsed()
      requires promptTokens == [] && flags == map[] && diagnostics == []
      ensures Parsed([]) && Uses([]) == []
    {}

    lemma SkipEmpty(done: seq<Use>)
      requires Parsed(done)
      ensures Parsed(done + [Skipped("")])
    {
      Extend(done, Skipped(""));
    }
  }

  lemma UsesStep(tokens: seq<string>, index: nat, done: seq<Use>)
    requires index < |tokens|
    ensures var u := NextUse(tokens[index..]);
            && index + |TokensOf(u)| <= |tokens|
            && done + Uses(tokens[index..]) == done + [u] + Uses(tokens[index + |TokensOf(u)|..])
  {
    var u := NextUse(tokens[index..]);
    assert tokens[index..][|TokensOf(u)|..] == tokens[index + |TokensOf(u)|..];
    Regroup(done, [u], Uses(tokens[index + |TokensOf(u)|..]));
  }

  lemma {:induction false} OccurrencesSnoc(done: seq<Use>, u: Use, name: string)
    ensures Occurrences(done + [u], name) == Occurrences(done, name) + ValueIn(u, name)
  {
    hide ValueIn;
    if done == [] {
      assert done + [u] == [u] && [u][1..] == [];
    } else {
      OccurrencesSnoc(done[1..], u, name);
      assert (done + [u])[1..] == done[1..] + [u];
      Regroup(ValueIn(done[0], name), Occurrences(done[1..], name), ValueIn(u, name));
    }
  }

  lemma {:induction false} WordsSnoc(done: seq<Use>, u: Use)
    ensures Words(done + [u]) == Words(done) + WordIn(u)
  {
    hide WordIn;
    if done == [] {
      assert done + [u] == [u] && [u][1..] == [];
    } else {
      WordsSnoc(done[1..], u);
      assert (done + [u])[1..] == done[1..] + [u];
      Regroup(WordIn(done[0]), Words(done[1..]), WordIn(u));
    }
  }

  lemma {:induction false} DiagnosticsSnoc(before: seq<Use>, done: seq<Use>, u: Use)
    ensures AllDiagnostics(before, done + [u])
         == AllDiagnostics(before, done) + UseDiagnostics(u, Repeats(before + done, u))
    decreases |done|
  {
    hide UseDiagnostics, Repeats;
    if done == [] {
      assert done + [u] == [u] && [u][1..] == [] && before + done == before;
    } else {
      DiagnosticsSnoc(before + [done[0]], done[1..], u);
      assert (done + [u])[1..] == done[1..] + [u];
      Uncons(done);
      Regroup(before, [done[0]], done[1..]);
      Regroup(UseDiagnostics(done[0], Repeats(before, done[0])), AllDiagnostics(before + [done[0]], done[1..]),
              UseDiagnostics(u, Repeats(before + done, u)));
    }
  }

  // What one more use adds.
  lemma Extend(done: seq<Use>, u: Use)
    ensures Words(done + [u]) == Words(done) + WordIn(u)
    ensures forall name :: Occurrences(done + [u], name) == Occurrences(done, name) + ValueIn(u, name)
    ensures AllDiagnostics([], done + [u]) == AllDiagnostics([], done) + UseDiagnostics(u, Repeats(done, u))
  {
    WordsSnoc(done, u);
    forall name ensures Occurrences(done + [u], name) == Occurrences(done, name) + ValueIn(u, name) {
      OccurrencesSnoc(done, u, name);
    }
    DiagnosticsSnoc([], done, u);
    assert [] + done == done;
  }

  // ----- Counting the warnings -----

  function CountOf(ds: seq<Diagnostic>, d: Diagnostic): nat {
    multiset(ds)[d]
  }

  lemma UseDuplicates(u: Use, seenBefore: bool, name: string)
    ensures CountOf(UseDiagnostics(u, seenBefore), Diagnostic("duplicate_flag", name))
         == if IsFlag(u) && u.name == name && seenBefore && name in SINGLE_VALUE_FLAGS then 1 else 0
  {}

  lemma {:induction false} DuplicateCount(before: seq<Use>, uses: seq<Use>, name: string)
    ensures CountOf(AllDiagnostics(before, uses), Diagnostic("duplicate_flag", name))
         == if name !in SINGLE_VALUE_FLAGS then 0
            else
              |Occurrences(uses, name)|
              - if Occurrences(before, name) == [] && Occurrences(uses, name) != [] then 1 else 0
    decreases |uses|
  {
    hide UseDiagnostics, SINGLE_VALUE_FLAGS, KNOWN_FLAGS;
    if uses != [] {
      DuplicateCount(before + [uses[0]], uses[1..], name);
      OccurrencesSnoc(before, uses[0], name);
      UseDuplicates(uses[0], Repeats(before, uses[0]), name);
    }
  }

  /**
   A flag is reported as a duplicate once for every occurrence after its first, if it is one of the seven
   that take a single value, and else never.
   */
  lemma DuplicateWarnings(tokens: seq<string>, name: string)
    ensures var n := |Occurrences(Uses(tokens), name)|;
            CountOf(AllDiagnostics([], Uses(tokens)), Diagnostic("duplicate_flag", name))
            == if n > 0 && name in {"approval", "executor", "line", "network", "range", "runner", "timeout"}
               then n - 1 else 0
  {
    hide Uses;
    DuplicateCount([], Uses(tokens), name);
  }

  lemma UseUnknowns(u: Use, seenBefore: bool, name: string)
    ensures CountOf(UseDiagnostics(u, seenBefore), Diagnostic("unknown_flag", name))
         == if IsFlag(u) && u.name == name && name !in KNOWN_FLAGS then 1 else 0
  {}

  lemma {:induction false} UnknownCount(before: seq<Use>, uses: seq<Use>, name: string)
    ensures CountOf(AllDiagnostics(before, uses), Diagnostic("unknown_flag", name))
         == if name in KNOWN_FLAGS then 0 else |Occurrences(uses, name)|
    decreases |uses|
  {
    hide UseDiagnostics, KNOWN_FLAGS, SINGLE_VALUE_FLAGS;
    if uses != [] {
      UnknownCount(before + [uses[0]], uses[1..], name);
      UseUnknowns(uses[0], Repeats(before, uses[0]), name);
    }
  }

  /** Every occurrence of a flag that is none of the twelve known ones is reported, and no other. */
  lemma UnknownWarnings(tokens: seq<string>, name: string)
    ensures CountOf(AllDiagnostics([], Uses(tokens)), Diagnostic("unknown_flag", name))
         == if name in {"approval", "executor", "file", "label", "line", "network", "path", "range", "runner", "scope",
                        "timeout", "url"}
            then 0 else |Occurrences(Uses(tokens), name)|
  {
    hide Uses;
    UnknownCount([], Uses(tokens), name);
  }

  // ----- Readers of the store -----

  // String(Number(text)), which never prints nothing.
  type Printer = string -> string

  ghost predicate Prints(show: Printer) {
    forall text :: IsNumeral(text) ==> show(text) != ""
  }

  // String(value)
  function StringOf(show: Printer, value: ArgValue): string {
    match value
    case Bool(b) => if b then "true" else "false"
    case Numeral(text) => show(text)
    case Text(text) => text
  }

  // stringValuesForFlag
  function StringValues(show: Printer, values: seq<ArgValue>): seq<string> {
    if values == [] then []
    else (if StringOf(show, values[0]) == "" then [] else [StringOf(show, values[0])]) + StringValues(show, values[1..])
  }

  // How --approval and --executor are read: the last non-empty string.
  function LastReading(show: Printer, values: seq<ArgValue>): Option<string> {
    var strings := StringValues(show, values);
    if strings == [] then None else Some(Lower(strings[|strings| - 1]))
  }

  // How --network is read: the first non-empty string.
  function NetworkReading(show: Printer, values: seq<ArgValue>): Option<string> {
    var strings := StringValues(show, values);
    if strings == [] then None else Some(Lower(strings[0]))
  }

  // ----- What the user wrote -----

  // The text given as a flag's value; a bare flag means true.
  function GivenText(u: Use): string
    requires IsFlag(u)
  {
    match u
    case FlagWithNext(_, _, valueToken) => valueToken
    case Flag(token, _, _) =>
      if LooksLikeFlag(token) && InlineValue(token).Some? then InlineValue(token).value else "true"
  }

  // The values given for a flag that are more than white space, in order.
  function Given(uses: seq<Use>, name: string): seq<string> {
    if uses == [] then [] else GivenIn(uses[0], name) + Given(uses[1..], name)
  }

  function GivenIn(u: Use, name: string): seq<string> {
    if IsFlag(u) && u.name == name && Trim(GivenText(u)) != "" then [GivenText(u)] else []
  }

  // A given value without white space around it and without case; a number as it prints.
  function Plain(show: Printer, given: string): string {
    var text := Trim(given);
    Lower(if IsNumeral(text) then show(text) else text)
  }

  lemma TrimTrue()
    ensures Trim("true") == "true" && Lower("true") == "true" && Lower("false") == "false" && !IsNumeral("true")
  {
    assert !IsSpace("true"[0]) && !IsSpace("true"[3]);
    assert TrimStart("true") == "true" && TrimEnd("true") == "true";
    var dot := IndexOf("true", ".", 0);
    if dot >= 0 { OccurrenceChar("true", ".", dot, 0); }
    assert !IsDigit("true"[0]);
  }

  lemma NoNumeralIsEmpty()
    ensures !IsNumeral("")
  {}

  // The stored value is what the given text parses to.
  lemma ParsesGiven(tokens: seq<string>)
    requires tokens != [] && IsFlag(NextUse(tokens))
    ensures ValueOf(NextUse(tokens)) == ParseFlagValue(GivenText(NextUse(tokens)))
  {
    hide Trim, Lower, IsNumeral, NormalizeFlagName, RawName, InlineValue;
    TrimTrue();
  }

  // Lower-cased, a stored value reads as the given text does; it is empty when that is white space.
  lemma ReadsAsGiven(show: Printer, given: string)
    requires Prints(show)
    ensures StringOf(show, ParseFlagValue(given)) == "" <==> Trim(given) == ""
    ensures Lower(StringOf(show, ParseFlagValue(given))) == Plain(show, given)
  {
    hide IsNumeral;
    NoNumeralIsEmpty();
    TrimTrue();
    LowerTwice(Trim(given));
  }

  lemma LowerTwice(s: string)
    ensures Lower(Lower(s)) == Lower(s)
  {}

  ghost predicate ReadAs(show: Printer, strings: seq<string>, given: seq<string>) {
    |strings| == |given| && forall i :: 0 <= i < |given| ==> Lower(strings[i]) == Plain(show, given[i])
  }

  lemma ReadAsConcat(show: Printer, a: seq<string>, b: seq<string>, c: seq<string>, d: seq<string>)
    requires ReadAs(show, a, c) && ReadAs(show, b, d)
    ensures ReadAs(show, a + b, c + d)
  {
    hide Plain, Lower;
    forall i | 0 <= i < |c + d| ensures Lower((a + b)[i]) == Plain(show, (c + d)[i]) {
      if i < |c| {
        assert (a + b)[i] == a[i] && (c + d)[i] == c[i];
      } else {
        assert (a + b)[i] == b[i - |a|] && (c + d)[i] == d[i - |c|];
      }
    }
  }

  lemma {:induction false} StringsReadAsGiven(show: Printer, tokens: seq<string>, name: string)
    requires Prints(show)
    ensures ReadAs(show, StringValues(show, Occurrences(Uses(tokens), name)), Given(Uses(tokens), name))
    decreases |tokens|
  {
    if tokens != [] {
      hide ReadAs, StringOf, ParseFlagValue, NextUse;
      var u := NextUse(tokens);
      var rest := Uses(tokens[|TokensOf(u)|..]);
      StringsReadAsGiven(show, tokens[|TokensOf(u)|..], name);
      assert Uses(tokens)[0] == u && Uses(tokens)[1..] == rest;
      OneReadAsGiven(show, tokens, name);
      StringsConcat(show, ValueIn(u, name), Occurrences(rest, name));
      ReadAsConcat(show, StringValues(show, ValueIn(u, name)), StringValues(show, Occurrences(rest, name)),
                   GivenIn(u, name), Given(rest, name));
    } else {
      assert Uses(tokens) == [];
    }
  }

  lemma OneReadAsGiven(show: Printer, tokens: seq<string>, name: string)
    requires Prints(show) && tokens != []
    ensures ReadAs(show, StringValues(show, ValueIn(NextUse(tokens), name)), GivenIn(NextUse(tokens), name))
  {
    hide StringOf, ParseFlagValue, NextUse, GivenText, Plain, Lower, Trim, Prints;
    var u := NextUse(tokens);
    if IsFlag(u) && u.name == name {
      ParsesGiven(tokens);
      ReadsAsGiven(show, GivenText(u));
      assert [ValueOf(u)][1..] == [];
    }
  }

  lemma {:induction false} StringsConcat(show: Printer, a: seq<ArgValue>, b: seq<ArgValue>)
    ensures StringValues(show, a + b) == StringValues(show, a) + StringValues(show, b)
  {
    hide StringOf;
    if a == [] {
      assert a + b == b;
    } else {
      var head := if StringOf(show, a[0]) == "" then [] else [StringOf(show, a[0])];
      StringsConcat(show, a[1..], b);
      assert (a + b)[0] == a[0] && (a + b)[1..] == a[1..] + b;
      Regroup(head, StringValues(show, a[1..]), StringValues(show, b));
    }
  }

  /**
   What any command means to its readers: --approval and --executor take the last value that is more
   than white space, --network the first.
   */
  lemma ReadingsOfCommand(show: Printer, tokens: seq<string>, name: string)
    requires Prints(show)
    ensures var values, given := Occurrences(Uses(tokens), name), Given(Uses(tokens), name);
            && LastReading(show, values) == (if given == [] then None else Some(Plain(show, given[|given| - 1])))
            && NetworkReading(show, values) == (if given == [] then None else Some(Plain(show, given[0])))
  {
    hide Uses, Occurrences, Given, Plain, StringValues;
    StringsReadAsGiven(show, tokens, name);
  }

  // A token that starts a flag is no value of the flag before it.
  lemma {:induction false} UsesAppend(tokens: seq<string>, more: seq<string>)
    requires more != [] && LooksLikeFlag(more[0])
    ensures Uses(tokens + more) == Uses(tokens) + Uses(more)
    decreases |tokens|
  {
    if tokens == [] {
      assert tokens + more == more;
    } else {
      var u := NextUse(tokens);
      NextUseAppend(tokens, more);
      var n := |TokensOf(u)|;
      assert (tokens + more)[n..] == tokens[n..] + more;
      UsesAppend(tokens[n..], more);
      Regroup([u], Uses(tokens[n..]), Uses(more));
    }
  }

  lemma NextUseAppend(tokens: seq<string>, more: seq<string>)
    requires tokens != [] && more != [] && LooksLikeFlag(more[0])
    ensures NextUse(tokens + more) == NextUse(tokens) && |TokensOf(NextUse(tokens))| <= |tokens|
  {
    hide ParseFlagValue, NormalizeFlagName, RawName, InlineValue;
    assert (tokens + more)[0] == tokens[0];
    if |tokens| > 1 {
      assert (tokens + more)[1] == tokens[1];
    } else {
      assert (tokens + more)[1] == more[0];
    }
  }

  lemma {:induction false} GivenConcat(a: seq<Use>, b: seq<Use>, name: string)
    ensures Given(a + b, name) == Given(a, name) + Given(b, name)
  {
    hide GivenIn;
    if a == [] {
      assert a + b == b;
    } else {
      GivenConcat(a[1..], b, name);
      assert (a + b)[0] == a[0] && (a + b)[1..] == a[1..] + b;
      Regroup(GivenIn(a[0], name), Given(a[1..], name), Given(b, name));
    }
  }

  /** Flags appended to a command: a later value replaces every reading but that of --network. */
  lemma LaterValue(show: Printer, tokens: seq<string>, more: seq<string>, name: string)
    requires Prints(show) && more != [] && LooksLikeFlag(more[0]) && Given(Uses(more), name) != []
    ensures var before, after := Occurrences(Uses(tokens), name), Occurrences(Uses(tokens + more), name);
            && LastReading(show, after) == LastReading(show, Occurrences(Uses(more), name))
            && (NetworkReading(show, before).Some? ==> NetworkReading(show, after) == NetworkReading(show, before))
  {
    hide Uses, Occurrences, Given, Plain, StringValues, LastReading, NetworkReading;
    ReadingsOfCommand(show, tokens, name);
    ReadingsOfCommand(show, more, name);
    ReadingsOfCommand(show, tokens + more, name);
    UsesAppend(tokens, more);
    GivenConcat(Uses(tokens), Uses(more), name);
  }

  /**
   The duplicate warning calls the last value authoritative; for --network that is false.  In any command
   it holds exactly when the first and the last value given that are more than white space are the same,
   white space around them and case aside; where it fails the command was warned about.
   */
  lemma NetworkFollowsWarning(show: Printer, tokens: seq<string>)
    requires Prints(show)
    ensures var values, given := Occurrences(Uses(tokens), "network"), Given(Uses(tokens), "network");
            (NetworkReading(show, values) == LastReading(show, values)
             <==> (given == [] || Plain(show, given[0]) == Plain(show, given[|given| - 1])))
    ensures var values := Occurrences(Uses(tokens), "network");
            NetworkReading(show, values) != LastReading(show, values) ==>
              CountOf(AllDiagnostics([], Uses(tokens)), Diagnostic("duplicate_flag", "network")) == |values| - 1 >= 1
  {
    hide Uses, Given, Plain, AllDiagnostics, Prints;
    ReadingsOfCommand(show, tokens, "network");
    DuplicateWarnings(tokens, "network");
    if |Occurrences(Uses(tokens), "network")| <= 1 {
      AtMostOneReading(show, Occurrences(Uses(tokens), "network"));
    }
  }

  lemma AtMostOneReading(show: Printer, values: seq<ArgValue>)
    requires |values| <= 1
    ensures NetworkReading(show, values) == LastReading(show, values)
  {
    if values != [] { assert StringValues(show, values[1..]) == []; }
  }

  lemma {:induction false} TrimPlain(s: string)
    requires forall i :: 0 <= i < |s| ==> !IsSpace(s[i])
    ensures Trim(s) == s
  {}

  predicate LowerLetters(word: string) {
    word != "" && forall i :: 0 <= i < |word| ==> 'a' <= word[i] <= 'z'
  }

  lemma WordReads(show: Printer, word: string)
    requires LowerLetters(word)
    ensures Plain(show, word) == word && Trim(word) == word
  {
    TrimPlain(word);
    var dot := IndexOf(word, ".", 0);
    if dot >= 0 { OccurrenceChar(word, ".", dot, 0); }
    assert !IsDigit(word[0]) && word[0] != '-';
    assert Lower(word) == word;
  }

  lemma NetworkFlag(value: string, rest: seq<string>)
    requires value != "" && !LooksLikeFlag(value)
    ensures NextUse(["--network", value] + rest) == FlagWithNext("--network", "network", value)
  {
    assert "--network"[2..] == "network";
    TrimPlain("network");
    var equalsIndex := IndexOf("network", "=", 0);
    if equalsIndex >= 0 { OccurrenceChar("network", "=", equalsIndex, 0); }
    assert Lower("network") == "network";
  }

  lemma NetworkUses(first: string, last: string)
    requires first != "" && last != "" && !LooksLikeFlag(first) && !LooksLikeFlag(last)
    ensures Uses(["--network", first, "--network", last])
         == [FlagWithNext("--network", "network", first), FlagWithNext("--network", "network", last)]
  {
    hide NextUse;
    var tokens, rest := ["--network", first, "--network", last], ["--network", last];
    NetworkFlag(first, rest);
    NetworkFlag(last, []);
    assert tokens == ["--network", first] + rest && rest == rest + [];
    assert tokens[2..] == rest && rest[2..] == [];
    assert Uses(rest) == [FlagWithNext("--network", "network", last)] + Uses([]);
  }

  lemma NetworkDiagnostics(first: Use, last: Use)
    requires first.FlagWithNext? && last.FlagWithNext? && first.name == last.name == "network"
    ensures AllDiagnostics([], [first, last]) == [Diagnostic("duplicate_flag", "network")]
  {
    hide ParseFlagValue;
    assert [first, last][1..] == [last] && [last][1..] == [] && [first][1..] == [];
    assert [] + [first] == [first];
    assert Occurrences([], "network") == [] && Occurrences([first], "network") == [ValueOf(first)] + [];
    assert !Repeats([], first) && Repeats([first], last);
    assert UseDiagnostics(first, false) == [];
    assert UseDiagnostics(last, true) == [Diagnostic("duplicate_flag", "network")];
    assert AllDiagnostics([first], [last]) == UseDiagnostics(last, true) + [];
  }

  lemma NetworkGiven(first: Use, last: Use)
    requires first.FlagWithNext? && last.FlagWithNext? && first.name == last.name == "network"
    requires Trim(first.valueToken) != "" && Trim(last.valueToken) != ""
    ensures Given([first, last], "network") == [first.valueToken, last.valueToken]
  {
    hide Trim;
    assert [first, last][1..] == [last] && [last][1..] == [];
    assert Given([last], "network") == GivenIn(last, "network") + [];
    assert Given([first, last], "network") == GivenIn(first, "network") + Given([last], "network");
  }

  /** A command on which the warning is wrong: it is given, and --network still reads the first value. */
  lemma NetworkIgnoresLastValue(show: Printer)
    requires Prints(show)
    ensures var uses := Uses(["--network", "restricted", "--network", "open"]);
            && AllDiagnostics([], uses) == [Diagnostic("duplicate_flag", "network")]
            && NetworkReading(show, Occurrences(uses, "network")) == Some("restricted")
            && LastReading(show, Occurrences(uses, "network")) == Some("open")
  {
    hide Uses, Given, Plain, Trim, LastReading, NetworkReading, AllDiagnostics, Prints, Occurrences;
    var tokens := ["--network", "restricted", "--network", "open"];
    var first, last := FlagWithNext("--network", "network", "restricted"), FlagWithNext("--network", "network", "open");
    assert "restricted"[0] != '-' && "open"[0] != '-';
    NetworkUses("restricted", "open");
    NetworkDiagnostics(first, last);
    assert LowerLetters("restricted") && LowerLetters("open");
    WordReads(show, "restricted");
    WordReads(show, "open");
    NetworkGiven(first, last);
    ReadingsOfCommand(show, tokens, "network");
  }

  // ----- Commands written down -----

  predicate AllSpace(s: string) {
    forall i :: 0 <= i < |s| ==> IsSpace(s[i])
  }

  lemma {:induction false} TrimStartSkips(gap: string, rest: string)
    requires AllSpace(gap) && (rest != "" ==> !IsSpace(rest[0]))
    ensures TrimStart(gap + rest) == rest
  {
    if gap == "" {
      assert gap + rest == rest;
    } else {
      assert (gap + rest)[1..] == gap[1..] + rest;
      TrimStartSkips(gap[1..], rest);
    }
  }

  lemma {:induction false} TrimEndSkips(rest: string, gap: string)
    requires AllSpace(gap) && (rest != "" ==> !IsSpace(rest[|rest| - 1]))
    ensures TrimEnd(rest + gap) == rest
  {
    if gap == "" {
      assert rest + gap == rest;
    } else {
      assert (rest + gap)[..|rest + gap| - 1] == rest + gap[..|gap| - 1];
      TrimEndSkips(rest, gap[..|gap| - 1]);
    }
  }

  /** Trimming takes exactly the white space at both ends. */
  lemma TrimsBothEnds(before: string, text: string, after: string)
    requires AllSpace(before) && AllSpace(after)
    requires text != "" ==> !IsSpace(text[0]) && !IsSpace(text[|text| - 1])
    ensures Trim(before + (text + after)) == text
  {
    if text == "" {
      assert before + (text + after) == (before + after) + "";
      TrimStartSkips(before + after, "");
    } else {
      TrimStartSkips(before, text + after);
      TrimEndSkips(text, after);
    }
  }

  /** Prompt words are joined with single spaces. */
  lemma {:induction false} WordsAreSpaced(a: seq<string>, b: seq<string>)
    ensures JoinWords([]) == "" && forall word :: JoinWords([word]) == word
    ensures a != [] && b != [] ==> JoinWords(a + b) == JoinWords(a) + (" " + JoinWords(b))
  {
    if a != [] && b != [] {
      assert (a + b)[0] == a[0] && (a + b)[1..] == a[1..] + b;
      if |a| == 1 {
        assert a[1..] + b == b;
      } else {
        WordsAreSpaced(a[1..], b);
      }
    }
  }

  // ^-?\d+(\.\d+)?$, piece by piece.
  predicate NumeralOf(s: string, sign: string, whole: string, fraction: Option<string>) {
    && (sign == "" || sign == "-") && Digits(whole)
    && match fraction
       case None => s == sign + whole
       case Some(digits) => Digits(digits) && s == sign + (whole + "." + digits)
  }

  lemma NoDotIn(s: string)
    requires forall i :: 0 <= i < |s| ==> s[i] != '.'
    ensures IndexOf(s, ".", 0) == -1
  {
    var r := IndexOf(s, ".", 0);
    if r >= 0 { OccurrenceChar(s, ".", r, 0); }
  }

  lemma FirstDot(whole: string, fraction: string)
    requires forall i :: 0 <= i < |whole| ==> whole[i] != '.'
    ensures IndexOf(whole + "." + fraction, ".", 0) == |whole|
  {
    var s := whole + "." + fraction;
    assert s[|whole|..|whole| + 1] == ".";
    forall j | 0 <= j < |whole| ensures !OccursAt(s, ".", j) {
      assert s[j] == whole[j];
      if OccursAt(s, ".", j) { OccurrenceChar(s, ".", j, 0); }
    }
    IndexOfUnique(s, ".", 0, |whole|);
  }

  // Without the minus sign.
  function Unsigned(s: string): string {
    if s != "" && s[0] == '-' then s[1..] else s
  }

  lemma UnsignedOf(sign: string, body: string)
    requires (sign == "" || sign == "-") && body != "" && body[0] != '-'
    ensures Unsigned(sign + body) == body
  {
    if sign == "" { assert sign + body == body; } else { assert (sign + body)[1..] == body; }
  }

  lemma SignedAgain(s: string)
    ensures s == (if s != "" && s[0] == '-' then "-" else "") + Unsigned(s)
  {}

  lemma NumeralFromParts(s: string, sign: string, whole: string, fraction: Option<string>)
    requires NumeralOf(s, sign, whole, fraction)
    ensures IsNumeral(s)
  {
    match fraction
    case None =>
      UnsignedOf(sign, whole);
      NoDotIn(whole);
    case Some(digits) =>
      var body := whole + "." + digits;
      UnsignedOf(sign, body);
      FirstDot(whole, digits);
      assert body[..|whole|] == whole && body[|whole| + 1..] == digits;
  }

  lemma SplitAtDot(body: string, dot: nat)
    requires OccursAt(body, ".", dot)
    ensures dot + 1 <= |body| && body == body[..dot] + "." + body[dot + 1..]
  {
    OccurrenceChar(body, ".", dot, 0);
  }

  lemma NumeralToParts(s: string) returns (sign: string, whole: string, fraction: Option<string>)
    requires IsNumeral(s)
    ensures NumeralOf(s, sign, whole, fraction)
  {
    hide Digits, OccursAt;
    var body := Unsigned(s);
    sign := if s != "" && s[0] == '-' then "-" else "";
    SignedAgain(s);
    var dot := IndexOf(body, ".", 0);
    if dot >= 0 {
      SplitAtDot(body, dot);
      whole, fraction := body[..dot], Some(body[dot + 1..]);
    } else {
      whole, fraction := body, None;
    }
  }

  /** What counts as a number: an optional minus sign, digits, and optionally a point and digits. */
  lemma NumeralsExactly(s: string)
    ensures IsNumeral(s) <==> exists sign, whole, fraction :: NumeralOf(s, sign, whole, fraction)
  {
    hide IsNumeral, NumeralOf;
    if IsNumeral(s) {
      var sign, whole, fraction := NumeralToParts(s);
    }
    if sign, whole, fraction :| NumeralOf(s, sign, whole, fraction) {
      NumeralFromParts(s, sign, whole, fraction);
    }
  }

  /** The text around the first equals sign: the name before it, the value after it. */
  lemma FlagTextReads(name: string, value: string)
    requires '=' !in name
    ensures RawName("--" + name) == name && InlineValue("--" + name) == None
    ensures RawName("--" + (name + ("=" + value))) == name && InlineValue("--" + (name + ("=" + value))) == Some(value)
  {
    assert ("--" + name)[2..] == name;
    var r := IndexOf(name, "=", 0);
    if r >= 0 { OccurrenceChar(name, "=", r, 0); }
    var text := name + ("=" + value);
    assert ("--" + text)[2..] == text;
    assert text[|name|..|name| + 1] == "=";
    forall j | 0 <= j < |name| ensures !OccursAt(text, "=", j) {
      assert text[j] == name[j];
      if OccursAt(text, "=", j) { OccurrenceChar(text, "=", j, 0); }
    }
    IndexOfUnique(text, "=", 0, |name|);
    assert text[..|name|] == name && text[|name| + 1..] == value;
  }

  // A part of a command: a prompt word, a flag with its value after an equals sign or in the next token,
  // or a flag alone.
  datatype Part =
    | PromptWord(word: string)
    | FlagEquals(name: string, value: string)
    | FlagThen(name: string, value: string)
    | BareFlag(name: string)

  function TokensIn(part: Part): seq<string> {
    match part
    case PromptWord(word) => [word]
    case FlagEquals(name, value) => ["--" + (name + ("=" + value))]
    case FlagThen(name, value) => ["--" + name, value]
    case BareFlag(name) => ["--" + name]
  }

  function TokensOfParts(parts: seq<Part>): seq<string> {
    if parts == [] then [] else TokensIn(parts[0]) + TokensOfParts(parts[1..])
  }

  // Names hold no equals sign and are more than white space; words and next-token values are no flags.
  predicate WellWritten(part: Part) {
    match part
    case PromptWord(word) => word != "" && !("--" <= word && word != "--")
    case FlagThen(name, value) => '=' !in name && Trim(name) != "" && value != "" && !("--" <= value)
    case FlagEquals(name, _) => '=' !in name && Trim(name) != ""
    case BareFlag(name) => '=' !in name && Trim(name) != ""
  }

  // A bare flag would take a prompt word after it as its value.
  predicate BareFlagsEnd(parts: seq<Part>) {
    forall i :: 0 <= i < |parts| - 1 && parts[i].BareFlag? ==>
      !parts[i + 1].PromptWord? || parts[i + 1].word == "--"
  }

  function WordsWritten(parts: seq<Part>): seq<string> {
    if parts == [] then []
    else (if parts[0].PromptWord? then [parts[0].word] else []) + WordsWritten(parts[1..])
  }

  // The values written for a flag; a bare flag stands for true.
  function ValuesWritten(parts: seq<Part>, flag: string): seq<ArgValue> {
    if parts == [] then []
    else ValueWritten(parts[0], flag) + ValuesWritten(parts[1..], flag)
  }

  function ValueWritten(part: Part, flag: string): seq<ArgValue> {
    match part
    case PromptWord(_) => []
    case BareFlag(name) => if Lower(Trim(name)) == flag then [Bool(true)] else []
    case FlagEquals(name, value) => if Lower(Trim(name)) == flag then [ParseFlagValue(value)] else []
    case FlagThen(name, value) => if Lower(Trim(name)) == flag then [ParseFlagValue(value)] else []
  }

  lemma NameIsNotEmpty(name: string)
    requires Trim(name) != ""
    ensures NormalizeFlagName(name) != "" && "--" + name != "--"
  {
    assert ("--" + name)[2..] == name;
  }

  // How the first part is used.
  lemma FirstUse(part: Part, more: seq<string>)
    requires WellWritten(part)
    requires part.BareFlag? && more != [] ==> more[0] != "" ==> LooksLikeFlag(more[0])
    ensures var u := NextUse(TokensIn(part) + more);
            && TokensOf(u) == TokensIn(part)
            && WordIn(u) == (if part.PromptWord? then [part.word] else [])
            && forall flag :: ValueIn(u, flag) == ValueWritten(part, flag)
  {
    hide ParseFlagValue, Trim, Lower, RawName, InlineValue;
    match part
    case PromptWord(word) =>
      assert TokensIn(part) + more == [word] + more;
    case FlagEquals(name, value) =>
      FlagTextReads(name, value);
      NameIsNotEmpty(name);
      assert ("--" + (name + ("=" + value)))[2..] == name + ("=" + value);
    case FlagThen(name, value) =>
      FlagTextReads(name, "");
      NameIsNotEmpty(name);
    case BareFlag(name) =>
      FlagTextReads(name, "");
      NameIsNotEmpty(name);
  }

  lemma FirstToken(parts: seq<Part>)
    requires parts != [] && WellWritten(parts[0])
    ensures TokensOfParts(parts) != [] && TokensOfParts(parts)[0] == TokensIn(parts[0])[0]
    ensures TokensIn(parts[0])[0] != ""
    ensures !parts[0].PromptWord? || parts[0].word == "--" ==> LooksLikeFlag(TokensIn(parts[0])[0])
  {}

  /** A command written part by part is taken apart as it was written: words, names and values, in order. */
  lemma {:induction false} PartsReadBack(parts: seq<Part>, flag: string)
    requires (forall i :: 0 <= i < |parts| ==> WellWritten(parts[i])) && BareFlagsEnd(parts)
    ensures var uses := Uses(TokensOfParts(parts));
            Words(uses) == WordsWritten(parts) && Occurrences(uses, flag) == ValuesWritten(parts, flag)
  {
    hide NextUse, WellWritten, ValueIn, ValueWritten;
    if parts == [] {
      assert Uses(TokensOfParts(parts)) == [];
    } else {
      var more := TokensOfParts(parts[1..]);
      if parts[0].BareFlag? && |parts| > 1 { FirstToken(parts[1..]); }
      FirstUse(parts[0], more);
      var tokens := TokensIn(parts[0]) + more;
      var u := NextUse(tokens);
      assert tokens[|TokensOf(u)|..] == more;
      assert Uses(tokens) == [u] + Uses(more);
      assert Uses(tokens)[1..] == Uses(more);
      PartsReadBack(parts[1..], flag);
    }
  }
}
