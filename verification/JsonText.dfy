/**
 JSON data as trees in which an object keeps the order of its members, the text
 that `JSON.stringify` writes for scalars and strings (section 7 of RFC 8259), and a
 reader that inverts it.  Strings are sequences of UTF-16 code units, as in JavaScript.
 */
module JsonText {
  import opened Options
  import opened Sequences

  type Unit = u: int | 0 <= u < 0x1_0000
  type Text = seq<Unit>

  datatype Entry<V> = Entry(key: Text, value: V)

  // A finite number is represented by the text JSON.stringify prints for it, so two numbers are
  // equal exactly when their texts are; both zeros print as "0".
  type NumberText = s: Text | |s| > 0 && forall i :: 0 <= i < |s| ==> IsNumberUnit(s[i]) witness [0x30]

  datatype Tree =
    | Null
    | Bool(b: bool)
    | Str(s: Text)
    | Num(n: NumberText)
    | Arr(items: seq<Tree>)
    | Obj(members: seq<Entry<Tree>>)

  const QUOTE: Unit := 0x22
  const BACKSLASH: Unit := 0x5C
  const COMMA: Unit := 0x2C
  const COLON: Unit := 0x3A
  const LBRACKET: Unit := 0x5B
  const RBRACKET: Unit := 0x5D
  const LBRACE: Unit := 0x7B
  const RBRACE: Unit := 0x7D
  const NULL: Text := [0x6E, 0x75, 0x6C, 0x6C]
  const TRUE: Text := [0x74, 0x72, 0x75, 0x65]
  const FALSE: Text := [0x66, 0x61, 0x6C, 0x73, 0x65]

  // digits, '+', '-', '.', 'e'
  predicate IsNumberUnit(c: Unit) {
    0x30 <= c <= 0x39 || c == 0x2B || c == 0x2D || c == 0x2E || c == 0x65
  }

  // ----- Printing -----

  function HexDigit(n: int): Unit
    requires 0 <= n < 16
  {
    if n < 10 then 0x30 + n else 0x57 + n
  }

  function HexValue(c: Unit): Option<int> {
    if 0x30 <= c <= 0x39 then Some(c - 0x30) else if 0x61 <= c <= 0x66 then Some(c - 0x57) else None
  }

  function UnicodeEscape(c: Unit): Text {
    [BACKSLASH, 0x75, HexDigit(c / 4096), HexDigit(c / 256 % 16), HexDigit(c / 16 % 16), HexDigit(c % 16)]
  }

  predicate IsHighSurrogate(c: Unit) { 0xD800 <= c <= 0xDBFF }

  predicate IsLowSurrogate(c: Unit) { 0xDC00 <= c <= 0xDFFF }

  // The letter that follows the backslash in a two-unit escape.
  function ShortEscape(c: Unit): Option<Unit> {
    if c == 0x08 then Some(0x62)
    else if c == 0x09 then Some(0x74)
    else if c == 0x0A then Some(0x6E)
    else if c == 0x0C then Some(0x66)
    else if c == 0x0D then Some(0x72)
    else if c == QUOTE || c == BACKSLASH then Some(c)
    else None
  }

  function ShortUnescape(c: Unit): Option<Unit> {
    if c == 0x62 then Some(0x08)
    else if c == 0x74 then Some(0x09)
    else if c == 0x6E then Some(0x0A)
    else if c == 0x66 then Some(0x0C)
    else if c == 0x72 then Some(0x0D)
    else if c == QUOTE || c == BACKSLASH then Some(c)
    else None
  }

  // Control characters and lone surrogates are written as \uXXXX.
  function EscapeUnit(c: Unit): Text {
    match ShortEscape(c)
    case Some(letter) => [BACKSLASH, letter]
    case None =>
      if c < 0x20 || IsHighSurrogate(c) || IsLowSurrogate(c) then UnicodeEscape(c) else [c]
  }

  function EscapeText(s: Text): Text {
    if s == [] then []
    else if IsHighSurrogate(s[0]) && |s| > 1 && IsLowSurrogate(s[1]) then [s[0], s[1]] + EscapeText(s[2..])
    else EscapeUnit(s[0]) + EscapeText(s[1..])
  }

  function Quote(s: Text): Text {
    [QUOTE] + EscapeText(s) + [QUOTE]
  }

  // Array.prototype.join(",")
  function Join(parts: seq<Text>): Text {
    if |parts| == 0 then []
    else if |parts| == 1 then parts[0]
    else parts[0] + [COMMA] + Join(parts[1..])
  }

  function ScalarText(t: Tree): Text
    requires !t.Arr? && !t.Obj?
  {
    match t
    case Null => NULL
    case Bool(b) => if b then TRUE else FALSE
    case Str(s) => Quote(s)
    case Num(n) => n
  }

  // The text of a tree, members in the order the tree holds them.
  function TextOf(t: Tree): Text {
    match t
    case Arr(items) => [LBRACKET] + Join(ItemTexts(items)) + [RBRACKET]
    case Obj(members) => [LBRACE] + Join(MemberTexts(members)) + [RBRACE]
    case _ => ScalarText(t)
  }

  function ItemTexts(items: seq<Tree>): (r: seq<Text>)
    ensures |r| == |items|
    ensures forall i :: 0 <= i < |items| ==> r[i] == TextOf(items[i])
  {
    if items == [] then [] else [TextOf(items[0])] + ItemTexts(items[1..])
  }

  function MemberTexts(members: seq<Entry<Tree>>): (r: seq<Text>)
    ensures |r| == |members|
    ensures forall i :: 0 <= i < |members| ==> r[i] == Quote(members[i].key) + [COLON] + TextOf(members[i].value)
  {
    if members == [] then []
    else [Quote(members[0].key) + [COLON] + TextOf(members[0].value)] + MemberTexts(members[1..])
  }

  /** The text of a string, unit by unit (section 7 of RFC 8259). */
  lemma EscapesUnit(c: Unit)
    ensures EscapeText([0x22]) == [0x5C, 0x22] && EscapeText([0x5C]) == [0x5C, 0x5C]
    ensures EscapeText([0x08]) == [0x5C, 0x62] && EscapeText([0x09]) == [0x5C, 0x74]
    ensures EscapeText([0x0A]) == [0x5C, 0x6E] && EscapeText([0x0C]) == [0x5C, 0x66]
    ensures EscapeText([0x0D]) == [0x5C, 0x72]
    ensures c < 0x20 && c !in {0x08, 0x09, 0x0A, 0x0C, 0x0D} ==>
              EscapeText([c]) == [0x5C, 0x75, 0x30, 0x30, 0x30 + c / 16, LowerHex(c % 16)]
    ensures 0xD800 <= c <= 0xDFFF ==>
              EscapeText([c]) == [0x5C, 0x75, 0x64, LowerHex(c / 256 % 16), LowerHex(c / 16 % 16), LowerHex(c % 16)]
    ensures c >= 0x20 && c != 0x22 && c != 0x5C && !(0xD800 <= c <= 0xDFFF) ==> EscapeText([c]) == [c]
  {
    hide EscapeText, HexDigit;
    EscapesOne(0x22);
    EscapesOne(0x5C);
    EscapesOne(0x08);
    EscapesOne(0x09);
    EscapesOne(0x0A);
    EscapesOne(0x0C);
    EscapesOne(0x0D);
    EscapesOne(c);
    assert HexDigit(0) == LowerHex(0) == 0x30 && HexDigit(0xD) == LowerHex(0xD) == 0x64;
    if c < 0x20 {
      assert c / 4096 == 0 && c / 256 % 16 == 0 && c / 16 % 16 == c / 16 && HexDigit(c / 16) == LowerHex(c / 16);
    }
  }

  lemma EscapesOne(u: Unit)
    ensures EscapeText([u]) == EscapeUnit(u)
  {
    assert [u][1..] == [];
  }

  // The digit 0 to 9 or a to f.
  function LowerHex(n: int): (r: Unit)
    requires 0 <= n < 16
    ensures r == if n <= 9 then 0x30 + n else 0x61 + (n - 10)
  {
    HexDigit(n)
  }

  /** A surrogate pair is kept as it is. */
  lemma KeepsPairs(high: Unit, low: Unit)
    requires 0xD800 <= high <= 0xDBFF && 0xDC00 <= low <= 0xDFFF
    ensures EscapeText([high, low]) == [high, low]
  {
    assert [high, low][2..] == [];
  }

  /** Strings are escaped piece by piece, unless a surrogate pair is cut. */
  lemma {:induction false} EscapesPiecewise(a: Text, b: Text)
    requires !(a != [] && b != [] && 0xD800 <= a[|a| - 1] <= 0xDBFF && 0xDC00 <= b[0] <= 0xDFFF)
    ensures EscapeText(a + b) == EscapeText(a) + EscapeText(b)
    decreases |a|
  {
    hide EscapeUnit;
    if a == [] {
      assert a + b == b;
    } else if IsHighSurrogate(a[0]) && |a| > 1 && IsLowSurrogate(a[1]) {
      assert (a + b)[0] == a[0] && (a + b)[1] == a[1] && (a + b)[2..] == a[2..] + b;
      EscapesPiecewise(a[2..], b);
      Regroup([a[0], a[1]], EscapeText(a[2..]), EscapeText(b));
    } else {
      assert (a + b)[0] == a[0] && (a + b)[1..] == a[1..] + b;
      EscapesPiecewise(a[1..], b);
      Regroup(EscapeUnit(a[0]), EscapeText(a[1..]), EscapeText(b));
    }
  }

  /** Brackets and commas, with no white space. */
  lemma ArraysPrintCompactly(a: Tree, items: seq<Tree>)
    ensures TextOf(Arr([])) == [0x5B, 0x5D]
    ensures TextOf(Arr([a])) == [0x5B] + TextOf(a) + [0x5D]
    ensures items != [] ==> TextOf(Arr([a] + items)) == [0x5B] + (TextOf(a) + [0x2C] + Join(ItemTexts(items))) + [0x5D]
    ensures TextOf(Arr(items)) == [0x5B] + Join(ItemTexts(items)) + [0x5D]
  {
    ItemTextsCons(a, []);
    assert [a] + [] == [a] && [TextOf(a)] + [] == [TextOf(a)];
    ItemTextsCons(a, items);
    JoinCons(TextOf(a), ItemTexts(items));
  }

  lemma ItemTextsCons(a: Tree, items: seq<Tree>)
    ensures ItemTexts([a] + items) == [TextOf(a)] + ItemTexts(items)
  {
    assert ([a] + items)[1..] == items;
  }

  lemma JoinCons(first: Text, parts: seq<Text>)
    ensures Join([first]) == first && Join([]) == []
    ensures parts != [] ==> Join([first] + parts) == first + [0x2C] + Join(parts)
  {
    assert ([first] + parts)[1..] == parts;
  }

  /** Braces, colons and commas, with no white space. */
  lemma ObjectsPrintCompactly(k: Text, a: Tree, members: seq<Entry<Tree>>)
    ensures TextOf(Obj([])) == [0x7B, 0x7D]
    ensures TextOf(Obj([Entry(k, a)])) == [0x7B] + (Quote(k) + [0x3A] + TextOf(a)) + [0x7D]
    ensures members != [] ==>
              TextOf(Obj([Entry(k, a)] + members))
              == [0x7B] + ((Quote(k) + [0x3A] + TextOf(a)) + [0x2C] + Join(MemberTexts(members))) + [0x7D]
    ensures TextOf(Obj(members)) == [0x7B] + Join(MemberTexts(members)) + [0x7D]
  {
    hide Quote;
    var first := Quote(k) + [COLON] + TextOf(a);
    MemberTextsCons(k, a, []);
    MemberTextsCons(k, a, members);
    assert [Entry(k, a)] + [] == [Entry(k, a)] && [first] + [] == [first];
    JoinCons(first, MemberTexts(members));
  }

  lemma MemberTextsCons(k: Text, a: Tree, members: seq<Entry<Tree>>)
    ensures MemberTexts([Entry(k, a)] + members) == [Quote(k) + [COLON] + TextOf(a)] + MemberTexts(members)
  {
    assert ([Entry(k, a)] + members)[1..] == members;
  }

  // ----- Reading -----

  // One string unit at the head of the text, and how many units it took.
  function ReadUnit(text: Text): (r: Option<(Unit, nat)>)
    requires |text| > 0
    ensures r.Some? ==> 0 < r.value.1 <= |text|
  {
    if text[0] != BACKSLASH then Some((text[0], 1))
    else if |text| < 2 then None
    else if text[1] == 0x75 then
      if |text| < 6 then None
      else
        match (HexValue(text[2]), HexValue(text[3]), HexValue(text[4]), HexValue(text[5]))
        case (Some(a), Some(b), Some(c), Some(d)) => Some((4096 * a + 256 * b + 16 * c + d, 6))
        case _ => None
    else
      match ShortUnescape(text[1])
      case Some(u) => Some((u, 2))
      case None => None
  }

  // The string up to the closing quote, and what follows it.
  function ReadQuoted(text: Text): (r: Option<(Text, Text)>)
    ensures r.Some? ==> |r.value.1| < |text|
    decreases |text|
  {
    if text == [] then None
    else if text[0] == QUOTE then Some(([], text[1..]))
    else
      match ReadUnit(text)
      case None => None
      case Some((u, n)) =>
        match ReadQuoted(text[n..])
        case None => None
        case Some((s, rest)) => Some(([u] + s, rest))
  }

  function NumberLength(text: Text): (n: nat)
    ensures n <= |text|
    ensures forall i :: 0 <= i < n ==> IsNumberUnit(text[i])
  {
    if text == [] || !IsNumberUnit(text[0]) then 0 else 1 + NumberLength(text[1..])
  }

  function ReadWord(text: Text, word: Text, value: Tree): (r: Option<(Tree, Text)>)
    requires |word| > 0
    ensures r.Some? ==> |r.value.1| < |text|
  {
    if word <= text then Some((value, text[|word|..])) else None
  }

  function Parse(text: Text): (r: Option<(Tree, Text)>)
    ensures r.Some? ==> |r.value.1| < |text|
    decreases |text|, 0
  {
    if text == [] then None
    else if text[0] == QUOTE then
      match ReadQuoted(text[1..])
      case None => None
      case Some((s, rest)) => Some((Str(s), rest))
    else if IsNumberUnit(text[0]) then
      var n := NumberLength(text);
      Some((Num(text[..n]), text[n..]))
    else if text[0] == LBRACKET then
      if |text| > 1 && text[1] == RBRACKET then Some((Arr([]), text[2..]))
      else
        match ParseItems(text[1..])
        case None => None
        case Some((items, rest)) => Some((Arr(items), rest))
    else if text[0] == LBRACE then
      if |text| > 1 && text[1] == RBRACE then Some((Obj([]), text[2..]))
      else
        match ParseMembers(text[1..])
        case None => None
        case Some((members, rest)) => Some((Obj(members), rest))
    else if text[0] == NULL[0] then ReadWord(text, NULL, Null)
    else if text[0] == TRUE[0] then ReadWord(text, TRUE, Bool(true))
    else ReadWord(text, FALSE, Bool(false))
  }

  function ParseItems(text: Text): (r: Option<(seq<Tree>, Text)>)
    ensures r.Some? ==> |r.value.1| < |text|
    decreases |text|, 1
  {
    match Parse(text)
    case None => None
    case Some((item, rest)) =>
      if rest == [] then None
      else if rest[0] == RBRACKET then Some(([item], rest[1..]))
      else if rest[0] != COMMA then None
      else
        match ParseItems(rest[1..])
        case None => None
        case Some((items, after)) => Some(([item] + items, after))
  }

  function ParseMembers(text: Text): (r: Option<(seq<Entry<Tree>>, Text)>)
    ensures r.Some? ==> |r.value.1| < |text|
    decreases |text|, 1
  {
    if text == [] || text[0] != QUOTE then None
    else
      match ReadQuoted(text[1..])
      case None => None
      case Some((key, afterKey)) =>
        if afterKey == [] || afterKey[0] != COLON then None
        else
          match Parse(afterKey[1..])
          case None => None
          case Some((value, rest)) =>
            if rest == [] then None
            else if rest[0] == RBRACE then Some(([Entry(key, value)], rest[1..]))
            else if rest[0] != COMMA then None
            else
              match ParseMembers(rest[1..])
              case None => None
              case Some((members, after)) => Some(([Entry(key, value)] + members, after))
  }

  // ----- The reader inverts the printer -----

  lemma HexInverts(d: int)
    requires 0 <= d < 16
    ensures HexValue(HexDigit(d)) == Some(d)
  {}

  lemma HexDigitsSum(c: Unit)
    ensures c / 4096 < 16
    ensures 4096 * (c / 4096) + 256 * (c / 256 % 16) + 16 * (c / 16 % 16) + c % 16 == c
  {
    assert c / 256 == 16 * (c / 4096) + c / 256 % 16;
    assert c / 16 == 16 * (c / 256) + c / 16 % 16;
  }

  lemma ReadUnicodeEscapeInverts(c: Unit, rest: Text)
    ensures ReadUnit(UnicodeEscape(c) + rest) == Some((c, 6))
  {
    HexDigitsSum(c);
    HexInverts(c / 4096);
    HexInverts(c / 256 % 16);
    HexInverts(c / 16 % 16);
    HexInverts(c % 16);
  }

  lemma ReadUnitInverts(c: Unit, rest: Text)
    ensures ReadUnit(EscapeUnit(c) + rest) == Some((c, |EscapeUnit(c)|))
  {
    if ShortEscape(c).Some? {
      assert (EscapeUnit(c) + rest)[1] == ShortEscape(c).value;
    } else if EscapeUnit(c) == UnicodeEscape(c) {
      ReadUnicodeEscapeInverts(c, rest);
    }
  }

  lemma ReadQuotedStep(unitText: Text, u: Unit, s: Text, text: Text, rest: Text)
    requires unitText != [] && unitText[0] != QUOTE
    requires ReadUnit(unitText + text) == Some((u, |unitText|))
    requires ReadQuoted(text) == Some((s, rest))
    ensures ReadQuoted(unitText + text) == Some(([u] + s, rest))
  {
    assert (unitText + text)[|unitText|..] == text;
  }

  lemma RawUnit(u: Unit, s: Text, text: Text, rest: Text)
    requires u != BACKSLASH && u != QUOTE
    requires ReadQuoted(text) == Some((s, rest))
    ensures ReadQuoted([u] + text) == Some(([u] + s, rest))
  {
    ReadQuotedStep([u], u, s, text, rest);
  }

  lemma EscapedUnit(u: Unit, s: Text, text: Text, rest: Text)
    requires ReadQuoted(text) == Some((s, rest))
    ensures ReadQuoted(EscapeUnit(u) + text) == Some(([u] + s, rest))
  {
    ReadUnitInverts(u, text);
    ReadQuotedStep(EscapeUnit(u), u, s, text, rest);
  }

  lemma ReadQuotedEnd(after: Text)
    requires after != [] && after[0] == QUOTE
    ensures ReadQuoted(after) == Some(([], after[1..]))
  {}

  lemma PairFirst(a: Unit, b: Unit, tail: Text, after: Text)
    ensures ([a, b] + tail) + after == [a] + ([b] + (tail + after))
  {}

  lemma {:induction false} ReadQuotedInverts(s: Text, after: Text)
    requires after != [] && after[0] == QUOTE
    ensures ReadQuoted(EscapeText(s) + after) == Some((s, after[1..]))
  {
    hide ReadQuoted, ReadUnit, EscapeUnit;
    if s == [] {
      ReadQuotedEnd(after);
      assert EscapeText(s) + after == after;
    } else if IsHighSurrogate(s[0]) && |s| > 1 && IsLowSurrogate(s[1]) {
      var tail := EscapeText(s[2..]) + after;
      ReadQuotedInverts(s[2..], after);
      RawUnit(s[1], s[2..], tail, after[1..]);
      RawUnit(s[0], [s[1]] + s[2..], [s[1]] + tail, after[1..]);
      PairFirst(s[0], s[1], EscapeText(s[2..]), after);
      assert s == [s[0]] + ([s[1]] + s[2..]);
    } else {
      ReadQuotedInverts(s[1..], after);
      EscapedUnit(s[0], s[1..], EscapeText(s[1..]) + after, after[1..]);
      Regroup(EscapeUnit(s[0]), EscapeText(s[1..]), after);
      Uncons(s);
    }
  }

  // What may follow a value: nothing, or a unit that cannot continue a number.
  predicate Delimited(rest: Text) {
    rest == [] || !IsNumberUnit(rest[0])
  }

  lemma {:induction false} NumberLengthInverts(n: Text, rest: Text)
    requires forall i :: 0 <= i < |n| ==> IsNumberUnit(n[i])
    requires Delimited(rest)
    ensures NumberLength(n + rest) == |n|
  {
    if n == [] {
      assert n + rest == rest;
    } else {
      NumberLengthInverts(n[1..], rest);
      assert (n + rest)[1..] == n[1..] + rest;
    }
  }

  lemma HeadOfText(t: Tree)
    ensures TextOf(t) != []
    ensures TextOf(t)[0] != RBRACKET && TextOf(t)[0] != RBRACE && TextOf(t)[0] != COMMA
  {}

  lemma HeadOfJoin(parts: seq<Text>)
    requires parts != [] && parts[0] != []
    ensures Join(parts) != [] && Join(parts)[0] == parts[0][0]
  {}

  lemma SplitJoin(parts: seq<Text>, after: Text)
    requires |parts| > 1
    ensures Join(parts) + after == parts[0] + ([COMMA] + (Join(parts[1..]) + after))
  {}

  lemma ParseWordInverts(t: Tree, rest: Text)
    requires t.Null? || t.Bool?
    ensures Parse(TextOf(t) + rest) == Some((t, rest))
  {
    var word := TextOf(t);
    assert word <= word + rest && (word + rest)[|word|..] == rest;
    assert (word + rest)[0] == word[0];
  }

  lemma ParseQuoted(s: Text, rest: Text)
    ensures Parse(Quote(s) + rest) == Some((Str(s), rest))
  {
    ReadQuotedInverts(s, [QUOTE] + rest);
    assert (Quote(s) + rest)[1..] == EscapeText(s) + ([QUOTE] + rest);
  }

  lemma ParseNumber(n: NumberText, rest: Text)
    requires Delimited(rest)
    ensures Parse(n + rest) == Some((Num(n), rest))
  {
    NumberLengthInverts(n, rest);
    assert (n + rest)[..|n|] == n && (n + rest)[|n|..] == rest;
  }

  lemma ParseBracketed(items: seq<Tree>, body: Text, rest: Text)
    requires body != [] && body[0] != RBRACKET && ParseItems(body) == Some((items, rest))
    ensures Parse([LBRACKET] + body) == Some((Arr(items), rest))
  {
    assert ([LBRACKET] + body)[1..] == body;
  }

  lemma ParseBraced(members: seq<Entry<Tree>>, body: Text, rest: Text)
    requires ParseMembers(body) == Some((members, rest))
    ensures Parse([LBRACE] + body) == Some((Obj(members), rest))
  {
    hide ReadQuoted;
    assert ([LBRACE] + body)[1..] == body;
  }

  lemma ParseEmpty(rest: Text)
    ensures Parse([LBRACKET] + ([RBRACKET] + rest)) == Some((Arr([]), rest))
    ensures Parse([LBRACE] + ([RBRACE] + rest)) == Some((Obj([]), rest))
  {
    assert ([LBRACKET] + ([RBRACKET] + rest))[2..] == rest;
    assert ([LBRACE] + ([RBRACE] + rest))[2..] == rest;
  }

  lemma ParseArray(items: seq<Tree>, rest: Text)
    requires items != [] ==> ParseItems(Join(ItemTexts(items)) + ([RBRACKET] + rest)) == Some((items, rest))
    ensures Parse(TextOf(Arr(items)) + rest) == Some((Arr(items), rest))
  {
    hide Parse, ParseItems;
    var inner := Join(ItemTexts(items));
    Enclosed(LBRACKET, inner, RBRACKET, rest);
    if items == [] {
      ParseEmpty(rest);
      assert inner + ([RBRACKET] + rest) == [RBRACKET] + rest;
    } else {
      HeadOfText(items[0]);
      HeadOfJoin(ItemTexts(items));
      ParseBracketed(items, inner + ([RBRACKET] + rest), rest);
    }
  }

  lemma ParseObject(members: seq<Entry<Tree>>, rest: Text)
    requires members != [] ==> ParseMembers(Join(MemberTexts(members)) + ([RBRACE] + rest)) == Some((members, rest))
    ensures Parse(TextOf(Obj(members)) + rest) == Some((Obj(members), rest))
  {
    hide Parse, ParseMembers;
    var inner := Join(MemberTexts(members));
    Enclosed(LBRACE, inner, RBRACE, rest);
    if members == [] {
      ParseEmpty(rest);
      assert inner + ([RBRACE] + rest) == [RBRACE] + rest;
    } else {
      ParseBraced(members, inner + ([RBRACE] + rest), rest);
    }
  }

  /** Every printed value is self-delimiting: the reader recovers the tree and stops where it ends. */
  lemma {:induction false} ParseInverts(t: Tree, rest: Text)
    requires Delimited(rest)
    ensures Parse(TextOf(t) + rest) == Some((t, rest))
    decreases t, 0
  {
    match t
    case Null => ParseWordInverts(t, rest);
    case Bool(b) => ParseWordInverts(t, rest);
    case Str(s) => ParseQuoted(s, rest);
    case Num(n) => ParseNumber(n, rest);
    case Arr(items) =>
      if items != [] {
        ParseItemsInverts(items, rest);
      }
      ParseArray(items, rest);
    case Obj(members) =>
      if members != [] {
        ParseMembersInverts(members, rest);
      }
      ParseObject(members, rest);
  }

  lemma {:induction false} ParseItemsInverts(items: seq<Tree>, rest: Text)
    requires items != []
    ensures ParseItems(Join(ItemTexts(items)) + ([RBRACKET] + rest)) == Some((items, rest))
    decreases items, 1
  {
    var after := [RBRACKET] + rest;
    if |items| == 1 {
      ParseInverts(items[0], after);
      assert items == [items[0]];
    } else {
      var tail := Join(ItemTexts(items[1..])) + after;
      ParseInverts(items[0], [COMMA] + tail);
      ParseItemsInverts(items[1..], rest);
      assert ([COMMA] + tail)[1..] == tail;
      SplitJoin(ItemTexts(items), after);
      Uncons(items);
    }
  }

  // The layout of one member, grouped the way the reader takes it apart.
  lemma MemberLayout(key: Text, valueText: Text, after: Text)
    ensures (Quote(key) + [COLON] + valueText) + after
         == [QUOTE] + (EscapeText(key) + ([QUOTE] + ([COLON] + (valueText + after))))
  {}

  lemma ParseMemberKey(key: Text, afterKey: Text)
    ensures ReadQuoted(([QUOTE] + (EscapeText(key) + ([QUOTE] + afterKey)))[1..]) == Some((key, afterKey))
  {
    ReadQuotedInverts(key, [QUOTE] + afterKey);
    assert ([QUOTE] + (EscapeText(key) + ([QUOTE] + afterKey)))[1..] == EscapeText(key) + ([QUOTE] + afterKey);
    assert ([QUOTE] + afterKey)[1..] == afterKey;
  }

  lemma ParseMemberStep(key: Text, value: Tree, after: Text, text: Text)
    requires text == (Quote(key) + [COLON] + TextOf(value)) + after
    requires after != [] && Parse(TextOf(value) + after) == Some((value, after))
    ensures after[0] == RBRACE ==> ParseMembers(text) == Some(([Entry(key, value)], after[1..]))
    ensures after[0] == COMMA && ParseMembers(after[1..]).Some? ==>
              var (members, rest) := ParseMembers(after[1..]).value;
              ParseMembers(text) == Some(([Entry(key, value)] + members, rest))
  {
    var afterKey := [COLON] + (TextOf(value) + after);
    MemberLayout(key, TextOf(value), after);
    ParseMemberKey(key, afterKey);
    assert afterKey[1..] == TextOf(value) + after;
  }

  lemma {:induction false} ParseMembersInverts(members: seq<Entry<Tree>>, rest: Text)
    requires members != []
    ensures ParseMembers(Join(MemberTexts(members)) + ([RBRACE] + rest)) == Some((members, rest))
    decreases members, 1
  {
    hide ParseMembers, Parse, Quote;
    var key, value := members[0].key, members[0].value;
    var after := [RBRACE] + rest;
    if |members| == 1 {
      ParseInverts(value, after);
      ParseMemberStep(key, value, after, MemberTexts(members)[0] + after);
      assert members == [Entry(key, value)];
    } else {
      var tail := Join(MemberTexts(members[1..])) + after;
      ParseInverts(value, [COMMA] + tail);
      ParseMembersInverts(members[1..], rest);
      assert ([COMMA] + tail)[1..] == tail;
      ParseMemberStep(key, value, [COMMA] + tail, MemberTexts(members)[0] + ([COMMA] + tail));
      SplitJoin(MemberTexts(members), after);
      Uncons(members);
    }
  }

  /** No two trees have the same text. */
  lemma TextInjective(a: Tree, b: Tree)
    ensures TextOf(a) == TextOf(b) ==> a == b
  {
    ParseInverts(a, []);
    ParseInverts(b, []);
    assert TextOf(a) + [] == TextOf(a) && TextOf(b) + [] == TextOf(b);
  }
}
