/**
 The macOS service definition: a property list written line by line, and the reader that recovers the
 environment from it with two regular expressions.
 */
module LaunchAgent {
  import opened Characters
  import opened Entries
  import opened Options
  import opened Sequences
  import opened ServiceEscapes
  import opened Strings

  datatype LaunchAgentInput = LaunchAgentInput(
    environment: seq<Entry>,
    keepAlive: bool,
    serviceLabel: string,
    programArguments: seq<string>,
    runAtLoad: bool,
    stderrPath: string,
    stdoutPath: string,
    workingDirectory: string)

  // ----- The printer -----

  function Tag(name: string): string {
    "<" + (name + ">")
  }

  function Element(name: string, text: string): string {
    Tag(name) + text + Tag("/" + name)
  }

  function StringElement(value: string): string {
    Element("string", EscapeXml(value))
  }

  function Indented(values: seq<string>): seq<string> {
    if values == [] then [] else ["    " + StringElement(values[0])] + Indented(values[1..])
  }

  function PlistStringArray(values: seq<string>): string {
    Join(Indented(values), "\n")
  }

  function EntryPair(entry: Entry): seq<string> {
    ["    " + Element("key", EscapeXml(entry.0)), "    " + StringElement(entry.1)]
  }

  function EntryLines(entries: seq<Entry>): seq<string> {
    if entries == [] then [] else EntryPair(entries[0]) + EntryLines(entries[1..])
  }

  function EnvironmentLines(entries: seq<Entry>): seq<string> {
    if entries == [] then []
    else
      ["  " + Element("key", "EnvironmentVariables"), "  " + Tag("dict")]
      + EntryLines(entries) + ["  " + Tag("/dict")]
  }

  function Flag(value: bool): string {
    if value then "  " + Tag("true/") else "  " + Tag("false/")
  }

  const XML_DECLARATION := "?xml version=\"1.0\" encoding=\"UTF-8\"?"
  const APPLE_DTD := "\"-//Apple//DTD PLIST 1.0//EN\""
  const DTD_PATH := "/DTDs/PropertyList-1.0.dtd\""
  const DOCTYPE := "!DOCTYPE plist PUBLIC " + (APPLE_DTD + (" \"http://www.apple.com" + DTD_PATH))
  const PLIST_VERSION := "plist version=\"1.0\""

  function Preamble(input: LaunchAgentInput): seq<string> {
    [Tag(XML_DECLARATION),
     Tag(DOCTYPE),
     Tag(PLIST_VERSION),
     Tag("dict"),
     "  " + Element("key", "Label"),
     "  " + StringElement(input.serviceLabel),
     "  " + Element("key", "ProgramArguments"),
     "  " + Tag("array"),
     PlistStringArray(input.programArguments),
     "  " + Tag("/array"),
     "  " + Element("key", "RunAtLoad"),
     Flag(input.runAtLoad),
     "  " + Element("key", "KeepAlive"),
     Flag(input.keepAlive),
     "  " + Element("key", "StandardOutPath"),
     "  " + StringElement(input.stdoutPath),
     "  " + Element("key", "StandardErrorPath"),
     "  " + StringElement(input.stderrPath),
     "  " + Element("key", "WorkingDirectory"),
     "  " + StringElement(input.workingDirectory)]
  }

  const CLOSING := [Tag("/dict"), Tag("/plist")]

  function BuildLaunchAgentPlist(input: LaunchAgentInput): string {
    Join(Preamble(input) + EnvironmentLines(input.environment) + CLOSING + [""], "\n")
  }

  // ----- The reader -----

  const ENVIRONMENT_KEY := "<key>" + "EnvironmentVariables" + "</key>"
  const OPEN_DICT := "<dict>"
  const CLOSE_DICT := "</dict>"

  // \s*
  function SkipSpaces(s: string): string {
    if s != "" && IsSpace(s[0]) then SkipSpaces(s[1..]) else s
  }

  datatype Cut = Cut(before: string, after: string)

  // ([\s\S]*?) followed by the given text: the shortest text before it, and what comes after it.
  function Until(s: string, stop: string): Option<Cut> {
    if stop <= s then Some(Cut("", s[|stop|..]))
    else if s == "" then None
    else match Until(s[1..], stop)
      case Some(cut) => Some(Cut([s[0]] + cut.before, cut.after))
      case None => None
  }

  // Optional white space, then the given tag.
  function AfterTag(s: string, tag: string): Option<string> {
    var rest := SkipSpaces(s);
    if tag <= rest then Some(rest[|tag|..]) else None
  }

  // The environment block, when it starts here.
  function BlockAt(s: string): Option<string> {
    if ENVIRONMENT_KEY <= s then
      match AfterTag(s[|ENVIRONMENT_KEY|..], OPEN_DICT)
      case Some(inside) => (match Until(inside, CLOSE_DICT) case Some(cut) => Some(cut.before) case None => None)
      case None => None
    else None
  }

  // The leftmost environment block.
  function FindBlock(s: string): Option<string> {
    if BlockAt(s).Some? then BlockAt(s) else if s == "" then None else FindBlock(s[1..])
  }

  datatype Match = Match(key: string, value: string, rest: string)

  // </key>, a string element, and the text after it.
  function ValueAt(key: string, s: string): Option<Match> {
    if "</key>" <= s then
      match AfterTag(s[6..], "<string>")
      case Some(inside) =>
        (match Until(inside, "</string>")
         case Some(cut) => Some(Match(key, cut.before, cut.after))
         case None => None)
      case None => None
    else None
  }

  // The shortest key that a string element follows.
  function KeyFrom(key: string, s: string): Option<Match>
    decreases |s|
  {
    if ValueAt(key, s).Some? then ValueAt(key, s) else if s == "" then None else KeyFrom(key + [s[0]], s[1..])
  }

  function PairAt(s: string): Option<Match> {
    if "<key>" <= s then KeyFrom("", s[5..]) else None
  }

  lemma {:induction false} UntilShrinks(s: string, stop: string)
    ensures Until(s, stop).Some? ==> |Until(s, stop).value.after| <= |s|
  {
    if s != "" { UntilShrinks(s[1..], stop); }
  }

  lemma {:induction false} SkipShrinks(s: string)
    ensures |SkipSpaces(s)| <= |s|
  {
    if s != "" { SkipShrinks(s[1..]); }
  }

  lemma {:induction false} KeyShrinks(key: string, s: string)
    ensures KeyFrom(key, s).Some? ==> |KeyFrom(key, s).value.rest| <= |s|
    decreases |s|
  {
    if ValueAt(key, s).Some? {
      SkipShrinks(s[6..]);
      UntilShrinks(AfterTag(s[6..], "<string>").value, "</string>");
    } else if s != "" {
      KeyShrinks(key + [s[0]], s[1..]);
    }
  }

  // All matches, left to right; each search starts where the last match ended.
  function AllPairs(s: string): seq<Entry>
    decreases |s|
  {
    match PairAt(s)
    case Some(found) =>
      KeyShrinks("", s[5..]);
      [(UnescapeXml(found.key), UnescapeXml(found.value))] + AllPairs(found.rest)
    case None => if s == "" then [] else AllPairs(s[1..])
  }

  // The pairs handed to Object.fromEntries.
  function ReadEntries(plist: string): seq<Entry> {
    match FindBlock(plist)
    case Some(body) => if body == "" then [] else AllPairs(body)
    case None => []
  }

  // A missing file holds no environment.
  function ReadLaunchAgentEnvironment(file: Option<string>): map<string, string> {
    match file
    case Some(plist) => FromEntries(ReadEntries(plist))
    case None => map[]
  }

  // ----- Text that a search passes over -----

  ghost predicate Differs(x: string, i: int, tag: string) {
    exists k :: 0 <= k < |tag| && 0 <= i + k < |x| && x[i + k] != tag[k]
  }

  // No occurrence of the tag starts inside x, whatever follows x.
  ghost predicate Avoids(x: string, tag: string) {
    forall i :: 0 <= i < |x| ==> Differs(x, i, tag)
  }

  lemma AvoidsNext(x: string, y: string, tag: string)
    requires x != "" && Avoids(x, tag)
    ensures !(tag <= x + y) && Avoids(x[1..], tag)
    ensures x + y != "" && (x + y)[0] == x[0] && (x + y)[1..] == x[1..] + y
  {
    assert Differs(x, 0, tag);
    var k :| 0 <= k < |tag| && k < |x| && x[k] != tag[k];
    assert (x + y)[k] != tag[k];
    forall i | 0 <= i < |x[1..]| ensures Differs(x[1..], i, tag) {
      assert Differs(x, i + 1, tag);
      var m :| 0 <= m < |tag| && 0 <= i + 1 + m < |x| && x[i + 1 + m] != tag[m];
      assert x[1..][i + m] != tag[m];
    }
  }

  lemma AvoidsConcat(a: string, b: string, tag: string)
    requires Avoids(a, tag) && Avoids(b, tag)
    ensures Avoids(a + b, tag)
  {
    forall i | 0 <= i < |a + b| ensures Differs(a + b, i, tag) {
      if i < |a| {
        assert Differs(a, i, tag);
        var k :| 0 <= k < |tag| && i + k < |a| && a[i + k] != tag[k];
        assert (a + b)[i + k] != tag[k];
      } else {
        assert Differs(b, i - |a|, tag);
        var k :| 0 <= k < |tag| && i - |a| + k < |b| && b[i - |a| + k] != tag[k];
        assert (a + b)[i + k] != tag[k];
      }
    }
  }

  lemma AvoidsPlain(x: string, tag: string)
    requires '<' !in x && tag != "" && tag[0] == '<'
    ensures Avoids(x, tag)
  {
    forall i | 0 <= i < |x| ensures Differs(x, i, tag) {
      assert x[i + 0] != tag[0];
    }
  }

  // A different tag.
  lemma AvoidsTag(rest: string, tag: string, k: nat)
    requires '<' !in rest && 1 <= k < |tag| && tag[0] == '<' && k - 1 < |rest| && rest[k - 1] != tag[k]
    ensures Avoids("<" + rest, tag)
  {
    var x := "<" + rest;
    forall i | 0 <= i < |x| ensures Differs(x, i, tag) {
      if i == 0 {
        assert x[i + k] != tag[k];
      } else {
        assert x[i + 0] == rest[i - 1] != tag[0];
      }
    }
  }

  lemma {:induction false} FindSkips(x: string, y: string)
    requires Avoids(x, "<key>E")
    ensures FindBlock(x + y) == FindBlock(y)
  {
    if x == "" {
      assert x + y == y;
    } else {
      AvoidsNext(x, y, "<key>E");
      assert ENVIRONMENT_KEY[..6] == "<key>E";
      assert ENVIRONMENT_KEY <= x + y ==> "<key>E" <= x + y;
      FindSkips(x[1..], y);
    }
  }

  lemma {:induction false} UntilFinds(x: string, stop: string, y: string)
    requires Avoids(x, stop)
    ensures Until(x + (stop + y), stop) == Some(Cut(x, y))
  {
    if x == "" {
      assert x + (stop + y) == stop + y && (stop + y)[|stop|..] == y;
    } else {
      AvoidsNext(x, stop + y, stop);
      UntilFinds(x[1..], stop, y);
      Uncons(x);
    }
  }

  lemma {:induction false} KeySkips(key: string, x: string, y: string)
    requires Avoids(x, "</key>")
    ensures KeyFrom(key, x + y) == KeyFrom(key + x, y)
    decreases |x|
  {
    if x == "" {
      assert x + y == y && key + x == key;
    } else {
      AvoidsNext(x, y, "</key>");
      KeySkips(key + [x[0]], x[1..], y);
      Uncons(x);
      Regroup(key, [x[0]], x[1..]);
    }
  }

  lemma {:induction false} PairsSkip(x: string, y: string)
    requires Avoids(x, "<key>")
    ensures AllPairs(x + y) == AllPairs(y)
  {
    if x == "" {
      assert x + y == y;
    } else {
      AvoidsNext(x, y, "<key>");
      PairsSkip(x[1..], y);
    }
  }

  // ----- Reading back what was written -----

  const BLOCK_START := "<key>E"

  lemma CloseTagAvoids(name: string)
    requires '<' !in name
    ensures Avoids(Tag("/" + name), BLOCK_START) && Avoids(Tag("/" + name), "<key>")
  {
    AvoidsTag("/" + name + ">", BLOCK_START, 1);
    AvoidsTag("/" + name + ">", "<key>", 1);
  }

  lemma StringElementAvoids(value: string)
    ensures Avoids(StringElement(value), BLOCK_START) && Avoids(StringElement(value), "<key>")
  {
    hide Avoids;
    EscapedHasNoTag(value);
    CloseTagAvoids("string");
    AvoidsTag("string" + ">", BLOCK_START, 1);
    AvoidsTag("string" + ">", "<key>", 1);
    forall tag | tag in {BLOCK_START, "<key>"} ensures Avoids(StringElement(value), tag) {
      AvoidsPlain(EscapeXml(value), tag);
      AvoidsConcat(Tag("string"), EscapeXml(value), tag);
      AvoidsConcat(Tag("string") + EscapeXml(value), Tag("/" + "string"), tag);
    }
  }

  // A key element other than the environment's.
  lemma KeyElementAvoids(text: string)
    requires text != "" && text[0] != 'E' && '<' !in text
    ensures Avoids(Element("key", text), BLOCK_START)
  {
    var open := ("key" + ">") + text;
    AvoidsTag(open, BLOCK_START, 5);
    CloseTagAvoids("key");
    assert "<" + open == Tag("key") + text;
    AvoidsConcat("<" + open, Tag("/" + "key"), BLOCK_START);
  }

  lemma {:induction false} LinesAvoid(lines: seq<string>, tag: string)
    requires tag != "" && tag[0] == '<' && forall i :: 0 <= i < |lines| ==> Avoids(lines[i], tag)
    ensures Avoids(Lines(lines), tag)
  {
    if lines != [] {
      LinesAvoid(lines[1..], tag);
      AvoidsPlain("\n", tag);
      AvoidsConcat(lines[0], "\n", tag);
      AvoidsConcat(lines[0] + "\n", Lines(lines[1..]), tag);
    }
  }

  lemma {:induction false} ArgumentsAvoid(values: seq<string>)
    ensures Avoids(PlistStringArray(values), BLOCK_START)
  {
    if values != [] {
      StringElementAvoids(values[0]);
      AvoidsPlain("    ", BLOCK_START);
      AvoidsConcat("    ", StringElement(values[0]), BLOCK_START);
      ArgumentsAvoid(values[1..]);
      AvoidsPlain("\n", BLOCK_START);
      AvoidsConcat("\n", PlistStringArray(values[1..]), BLOCK_START);
      AvoidsConcat("    " + StringElement(values[0]), "\n" + PlistStringArray(values[1..]), BLOCK_START);
    }
  }

  // Key, value and what follows, as the reader meets them.
  function PairText(key: string, value: string, more: string): string {
    "<key>" + (key + ("</key>" + ("\n    " + ("<string>" + (value + ("</string>" + more))))))
  }

  lemma SkipIndent(rest: string)
    requires rest != "" && !IsSpace(rest[0])
    ensures SkipSpaces("\n    " + rest) == rest && SkipSpaces("\n  " + rest) == rest
  {
    assert rest == SkipSpaces(rest);
    SkipOne(' ', rest);
    SkipOne(' ', [' '] + rest);
    SkipOne('\n', [' '] + ([' '] + rest));
    assert "\n  " + rest == ['\n'] + ([' '] + ([' '] + rest));
    SkipOne(' ', [' '] + ([' '] + rest));
    SkipOne(' ', [' '] + ([' '] + ([' '] + rest)));
    SkipOne('\n', [' '] + ([' '] + ([' '] + ([' '] + rest))));
    assert "\n    " + rest == ['\n'] + ([' '] + ([' '] + ([' '] + ([' '] + rest))));
  }

  lemma SkipOne(c: char, rest: string)
    requires IsSpace(c)
    ensures SkipSpaces([c] + rest) == SkipSpaces(rest)
  {
    assert ([c] + rest)[1..] == rest;
  }

  lemma ValueRead(key: string, value: string, more: string)
    requires '<' !in value
    ensures ValueAt(key, "</key>" + ("\n    " + ("<string>" + (value + ("</string>" + more)))))
         == Some(Match(key, value, more))
  {
    hide Until, Avoids, SkipSpaces;
    var inside := value + ("</string>" + more);
    var element := "<string>" + inside;
    SkipIndent(element);
    AvoidsPlain(value, "</string>");
    UntilFinds(value, "</string>", more);
    assert ("</key>" + ("\n    " + element))[6..] == "\n    " + element;
    assert element[8..] == inside;
  }

  lemma PairRead(key: string, value: string, more: string)
    requires '<' !in key && '<' !in value
    ensures PairAt(PairText(key, value, more)) == Some(Match(key, value, more))
  {
    hide ValueAt, Avoids;
    var tail := "</key>" + ("\n    " + ("<string>" + (value + ("</string>" + more))));
    assert PairText(key, value, more)[5..] == key + tail;
    AvoidsPlain(key, "</key>");
    KeySkips("", key, tail);
    assert "" + key == key;
    ValueRead(key, value, more);
  }

  lemma LinesOfTwo(a: string, b: string)
    ensures Lines([a, b]) == (a + "\n") + (b + "\n")
  {
    assert [a, b][1..] == [b];
    assert Lines([b]) == b + "\n";
  }

  lemma EntryText(entry: Entry, more: string)
    ensures Lines(EntryPair(entry)) + more
         == "    " + PairText(EscapeXml(entry.0), EscapeXml(entry.1), "\n" + more)
  {
    hide EscapeXml, Lines;
    var key, value := EscapeXml(entry.0), EscapeXml(entry.1);
    LinesOfTwo("    " + Element("key", key), "    " + Element("string", value));
    TagTexts();
    Flatten("    ", "<key>", key, "</key>", "\n", "    ", "<string>", value, "</string>", more);
    assert "\n" + "    " == "\n    ";
  }

  lemma TagTexts()
    ensures Tag("key") == "<key>" && Tag("/" + "key") == "</key>"
    ensures Tag("string") == "<string>" && Tag("/" + "string") == "</string>"
  {}

  lemma Flatten(
    a: string, b: string, c: string, d: string, e: string, f: string, g: string, h: string, i: string, j: string)
    ensures ((a + ((b + c) + d) + e) + (f + ((g + h) + i) + e)) + j
         == a + (b + (c + (d + ((e + f) + (g + (h + (i + (e + j))))))))
  {}

  lemma EntryLinesSplit(entries: seq<Entry>)
    requires entries != []
    ensures Lines(EntryLines(entries)) == Lines(EntryPair(entries[0])) + Lines(EntryLines(entries[1..]))
  {
    hide EntryPair, Lines;
    LinesAppend(EntryPair(entries[0]), EntryLines(entries[1..]));
  }

  lemma {:induction false} PairsReadBack(entries: seq<Entry>, tail: string)
    requires Avoids(tail, "<key>")
    ensures AllPairs(Lines(EntryLines(entries)) + tail) == entries
  {
    if entries == [] {
      PairsSkip(tail, "");
      assert Lines(EntryLines(entries)) + tail == tail == tail + "";
    } else {
      hide Avoids, PairAt, PairText, Lines, EntryLines, EntryPair, EscapeXml, UnescapeXml;
      var first := entries[0];
      var more := Lines(EntryLines(entries[1..])) + tail;
      var text := PairText(EscapeXml(first.0), EscapeXml(first.1), "\n" + more);
      EntryLinesSplit(entries);
      Regroup(Lines(EntryPair(first)), Lines(EntryLines(entries[1..])), tail);
      EntryText(first, more);
      AvoidsPlain("    ", "<key>");
      PairsSkip("    ", text);
      EscapedHasNoTag(first.0);
      EscapedHasNoTag(first.1);
      PairRead(EscapeXml(first.0), EscapeXml(first.1), "\n" + more);
      UnescapeXmlInverts(first.0);
      UnescapeXmlInverts(first.1);
      AvoidsPlain("\n", "<key>");
      PairsSkip("\n", more);
      PairsReadBack(entries[1..], tail);
    }
  }

  // The entries never close the dictionary.
  lemma {:induction false} EntriesAvoidClose(entries: seq<Entry>)
    ensures Avoids(Lines(EntryLines(entries)), CLOSE_DICT)
  {
    if entries != [] {
      hide Avoids, EscapeXml, Lines, EntryLines;
      var key, value := EscapeXml(entries[0].0), EscapeXml(entries[0].1);
      EntryLinesSplit(entries);
      EntriesAvoidClose(entries[1..]);
      EscapedHasNoTag(entries[0].0);
      EscapedHasNoTag(entries[0].1);
      ElementAvoidsClose("key", key);
      ElementAvoidsClose("string", value);
      AvoidsPlain("    ", CLOSE_DICT);
      AvoidsConcat("    ", Element("key", key), CLOSE_DICT);
      AvoidsConcat("    ", Element("string", value), CLOSE_DICT);
      LinesAvoid(EntryPair(entries[0]), CLOSE_DICT);
      AvoidsConcat(Lines(EntryPair(entries[0])), Lines(EntryLines(entries[1..])), CLOSE_DICT);
    }
  }

  lemma ElementAvoidsClose(name: string, text: string)
    requires name != "" && name[0] != '/' && name[0] != 'd' && '<' !in name && '<' !in text
    ensures Avoids(Element(name, text), CLOSE_DICT)
  {
    hide Avoids;
    AvoidsTag(name + ">", CLOSE_DICT, 1);
    AvoidsPlain(text, CLOSE_DICT);
    AvoidsTag("/" + name + ">", CLOSE_DICT, 2);
    AvoidsConcat(Tag(name), text, CLOSE_DICT);
    AvoidsConcat(Tag(name) + text, Tag("/" + name), CLOSE_DICT);
  }

  // The block with its body, as the reader meets it.
  lemma BlockRead(body: string, after: string)
    requires Avoids(body, CLOSE_DICT)
    ensures FindBlock("  " + (ENVIRONMENT_KEY + ("\n  " + (OPEN_DICT + (body + (CLOSE_DICT + after)))))) == Some(body)
  {
    hide Avoids, SkipSpaces, Until;
    var inside := body + (CLOSE_DICT + after);
    var block := ENVIRONMENT_KEY + ("\n  " + (OPEN_DICT + inside));
    AvoidsPlain("  ", BLOCK_START);
    FindSkips("  ", block);
    assert block[|ENVIRONMENT_KEY|..] == "\n  " + (OPEN_DICT + inside);
    SkipIndent(OPEN_DICT + inside);
    assert (OPEN_DICT + inside)[|OPEN_DICT|..] == inside;
    UntilFinds(body, CLOSE_DICT, after);
  }

  // ----- The whole file -----

  lemma IndentedAvoids(line: string)
    requires Avoids(line, BLOCK_START)
    ensures Avoids("  " + line, BLOCK_START)
  {
    AvoidsPlain("  ", BLOCK_START);
    AvoidsConcat("  ", line, BLOCK_START);
  }

  lemma TagAvoids(name: string)
    requires '<' !in name && name != "" && name[0] != 'k'
    ensures Avoids(Tag(name), BLOCK_START) && Avoids("  " + Tag(name), BLOCK_START)
  {
    AvoidsTag(name + ">", BLOCK_START, 1);
    IndentedAvoids(Tag(name));
  }

  lemma FixedTagsAvoid()
    ensures forall name :: name in {"dict", "array", "/array", "true/", "false/"} ==>
      Avoids(Tag(name), BLOCK_START) && Avoids("  " + Tag(name), BLOCK_START)
  {
    hide Avoids, Tag;
    forall name | name in {"dict", "array", "/array", "true/", "false/"}
      ensures Avoids(Tag(name), BLOCK_START) && Avoids("  " + Tag(name), BLOCK_START)
    {
      TagAvoids(name);
    }
  }

  lemma HeadAvoids()
    ensures Avoids(Tag(XML_DECLARATION), BLOCK_START) && Avoids(Tag(PLIST_VERSION), BLOCK_START)
  {
    hide Avoids, Tag;
    TagAvoids(XML_DECLARATION);
    TagAvoids(PLIST_VERSION);
  }

  lemma DtdPlain()
    ensures '<' !in " \"http://www.apple.com" + DTD_PATH
  {
    PlainConcat(" \"http://www.apple.com", DTD_PATH);
  }

  lemma DoctypeAvoids()
    ensures Avoids(Tag(DOCTYPE), BLOCK_START)
  {
    hide Avoids, Tag;
    var dtd := " \"http://www.apple.com" + DTD_PATH;
    DtdPlain();
    PlainConcat(APPLE_DTD, dtd);
    PlainConcat("!DOCTYPE plist PUBLIC ", APPLE_DTD + dtd);
    TagAvoids(DOCTYPE);
  }

  lemma PlainConcat(a: string, b: string)
    requires '<' !in a && '<' !in b
    ensures '<' !in a + b
  {}

  lemma KeyLineAvoids(text: string)
    requires text != "" && text[0] != 'E' && '<' !in text
    ensures Avoids("  " + Element("key", text), BLOCK_START)
  {
    KeyElementAvoids(text);
    IndentedAvoids(Element("key", text));
  }

  lemma StringLineAvoids(value: string)
    ensures Avoids("  " + StringElement(value), BLOCK_START)
  {
    StringElementAvoids(value);
    IndentedAvoids(StringElement(value));
  }

  lemma KeyLinesAvoid()
    ensures forall text :: text in KEYS ==> Avoids("  " + Element("key", text), BLOCK_START)
  {
    hide Avoids, Element;
    forall text | text in KEYS ensures Avoids("  " + Element("key", text), BLOCK_START) {
      KeyLineAvoids(text);
    }
  }

  const KEYS :=
    {"Label", "ProgramArguments", "RunAtLoad", "KeepAlive", "StandardOutPath", "StandardErrorPath", "WorkingDirectory"}

  lemma PreambleAvoids(input: LaunchAgentInput)
    ensures Avoids(Lines(Preamble(input)), BLOCK_START)
  {
    hide Avoids, Lines, StringElement, PlistStringArray, Element, Tag;
    HeadAvoids();
    DoctypeAvoids();
    FixedTagsAvoid();
    KeyLinesAvoid();
    StringLineAvoids(input.serviceLabel);
    StringLineAvoids(input.stdoutPath);
    StringLineAvoids(input.stderrPath);
    StringLineAvoids(input.workingDirectory);
    ArgumentsAvoid(input.programArguments);
    LinesAvoid(Preamble(input), BLOCK_START);
  }

  lemma EnvironmentText(entries: seq<Entry>, more: string)
    requires entries != []
    ensures var body := "\n" + (Lines(EntryLines(entries)) + "  ");
            Lines(EnvironmentLines(entries)) + more
            == "  " + (ENVIRONMENT_KEY + ("\n  " + (OPEN_DICT + (body + (CLOSE_DICT + ("\n" + more))))))
  {
    hide EntryLines, Lines;
    var open, close := ["  " + Element("key", "EnvironmentVariables"), "  " + Tag("dict")], ["  " + Tag("/dict")];
    LinesAppend(open + EntryLines(entries), close);
    LinesAppend(open, EntryLines(entries));
    LinesOfTwo("  " + Element("key", "EnvironmentVariables"), "  " + Tag("dict"));
    LinesOfOne("  " + Tag("/dict"));
    EnvironmentTags();
    Reassociate("  ", ENVIRONMENT_KEY, "\n", OPEN_DICT, Lines(EntryLines(entries)), CLOSE_DICT, more);
    assert "\n" + "  " == "\n  ";
  }

  lemma LinesOfOne(a: string)
    ensures Lines([a]) == a + "\n"
  {}

  lemma EnvironmentTags()
    ensures Element("key", "EnvironmentVariables") == ENVIRONMENT_KEY
    ensures Tag("dict") == OPEN_DICT && Tag("/dict") == CLOSE_DICT
  {
    TagTexts();
  }

  lemma Reassociate(a: string, b: string, c: string, d: string, e: string, f: string, g: string)
    ensures ((((a + b) + c) + ((a + d) + c) + e) + ((a + f) + c)) + g
         == a + (b + ((c + a) + (d + ((c + (e + a)) + (f + (c + g))))))
  {}

  /** Every environment written into a launch agent definition is read back, entry for entry. */
  lemma EnvironmentReadsBack(input: LaunchAgentInput)
    ensures ReadEntries(BuildLaunchAgentPlist(input)) == input.environment
  {
    hide Avoids, Preamble, Lines, EntryLines, AllPairs, EnvironmentLines;
    var preamble, env := Preamble(input), EnvironmentLines(input.environment);
    var more := Lines(CLOSING);
    JoinEndingEmpty(preamble + env + CLOSING);
    LinesAppend(preamble + env, CLOSING);
    LinesAppend(preamble, env);
    Regroup(Lines(preamble), Lines(env), more);
    PreambleAvoids(input);
    FindSkips(Lines(preamble), Lines(env) + more);
    ClosingAvoids();
    BlockReadsBack(input.environment, more);
  }

  lemma ClosingAvoids()
    ensures Avoids(Lines(CLOSING), BLOCK_START)
  {
    hide Avoids, Lines, Tag;
    TagAvoids("/dict");
    TagAvoids("/plist");
    LinesAvoid(CLOSING, BLOCK_START);
  }

  lemma BlockReadsBack(entries: seq<Entry>, more: string)
    requires Avoids(more, BLOCK_START)
    ensures ReadEntries(Lines(EnvironmentLines(entries)) + more) == entries
  {
    if entries == [] {
      FindSkips(more, "");
      assert Lines(EnvironmentLines(entries)) + more == more == more + "";
    } else {
      hide Avoids, Lines, EnvironmentLines, EntryLines, AllPairs, FindBlock;
      var lines := Lines(EntryLines(entries));
      EnvironmentText(entries, more);
      BodyAvoidsClose(entries);
      BlockRead("\n" + (lines + "  "), "\n" + more);
      AvoidsPlain("\n", "<key>");
      PairsSkip("\n", lines + "  ");
      AvoidsPlain("  ", "<key>");
      PairsReadBack(entries, "  ");
    }
  }

  lemma BodyAvoidsClose(entries: seq<Entry>)
    ensures Avoids("\n" + (Lines(EntryLines(entries)) + "  "), CLOSE_DICT)
  {
    hide Avoids, Lines, EntryLines;
    var lines := Lines(EntryLines(entries));
    EntriesAvoidClose(entries);
    AvoidsPlain("\n", CLOSE_DICT);
    AvoidsPlain("  ", CLOSE_DICT);
    AvoidsConcat(lines, "  ", CLOSE_DICT);
    AvoidsConcat("\n", lines + "  ", CLOSE_DICT);
  }

  /** So the environment itself is read back, whatever its keys and values. */
  lemma EnvironmentMapReadsBack(input: LaunchAgentInput, environment: map<string, string>)
    requires Lists(input.environment, environment)
    ensures ReadLaunchAgentEnvironment(Some(BuildLaunchAgentPlist(input))) == environment
  {
    EnvironmentReadsBack(input);
    FromEntriesInverts(input.environment, environment);
  }
}
