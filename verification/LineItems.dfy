/** templates/dashboard/js_common.html: the text of line items, one "label: amount" per line. */
module LineItems {
  import opened Wrappers

  /** A JavaScript number that is not NaN. `code` numbers the finite doubles, which are countably many;
      the two zeros share one. */
  datatype Number = Finite(code: nat) | Infinite(negative: bool)

  /** JavaScript's parseFloat, None for NaN, and its printing of numbers. */
  datatype Numbers = Numbers(parse: string -> Option<Number>, print_: Number -> string)

  predicate Trimmed(s: string) {
    s == "" || (!IsSpace(s[0]) && !IsSpace(s[|s| - 1]))
  }

  /** A number whose print reads back, and holds no surrounding space or line break. */
  predicate ReadsBack(n: Numbers, v: Number) {
    n.parse(n.print_(v)) == Some(v) && Trimmed(n.print_(v)) && '\n' !in n.print_(v)
  }

  /** What is taken from JavaScript: so do all numbers. */
  ghost predicate Sound(n: Numbers) {
    forall v :: ReadsBack(n, v)
  }

  // -------------------------------------------------------------------- text

  /** The white space and line terminators that JavaScript's trim removes. */
  predicate IsSpace(c: char) {
    || '\t' <= c <= '\r' || c == ' ' || c == '\U{00A0}' || c == '\U{1680}'
    || '\U{2000}' <= c <= '\U{200A}' || c == '\U{2028}' || c == '\U{2029}'
    || c == '\U{202F}' || c == '\U{205F}' || c == '\U{3000}' || c == '\U{FEFF}'
  }

  function TrimStart(s: string): string {
    if s != "" && IsSpace(s[0]) then TrimStart(s[1..]) else s
  }

  function TrimEnd(s: string): string {
    if s != "" && IsSpace(s[|s| - 1]) then TrimEnd(s[..|s| - 1]) else s
  }

  function Trim(s: string): string {
    TrimEnd(TrimStart(s))
  }

  function IndexOf(s: string, c: char): (i: nat)
    ensures i <= |s| && c !in s[..i] && (i < |s| ==> s[i] == c)
  {
    if s == "" || s[0] == c then 0
    else
      var i := 1 + IndexOf(s[1..], c);
      assert s[..i] == [s[0]] + s[1..][..i - 1];
      i
  }

  function Split(text: string): (lines: seq<string>)
    ensures lines != []
    decreases |text|
  {
    var i := IndexOf(text, '\n');
    if i == |text| then [text] else [text[..i]] + Split(text[i + 1..])
  }

  function Join(lines: seq<string>): string
    requires lines != []
  {
    if |lines| == 1 then lines[0] else lines[0] + ("\n" + Join(lines[1..]))
  }

  // ------------------------------------------------- the assumption can be met

  function Ones(code: nat): string {
    seq(code, i => '1')
  }

  function UnaryPrint(v: Number): string {
    match v
    case Finite(code) => Ones(code)
    case Infinite(negative) => if negative then "-Infinity" else "Infinity"
  }

  function UnaryParse(s: string): Option<Number> {
    if s == "-Infinity" then Some(Infinite(true))
    else if s == "Infinity" then Some(Infinite(false))
    else if s == Ones(|s|) then Some(Finite(|s|))
    else None
  }

  /** There are parsers and printers of all numbers that read back what they print. */
  lemma SoundIsMet()
    ensures Sound(Numbers(UnaryParse, UnaryPrint))
  {
    var n := Numbers(UnaryParse, UnaryPrint);
    forall v
      ensures ReadsBack(n, v)
    {
      var s := UnaryPrint(v);
      match v
      case Finite(code) =>
        assert s == Ones(|s|);
        assert code > 0 ==> s[0] == '1';
      case Infinite(negative) =>
        assert "-Infinity"[0] == '-' && "Infinity"[0] == 'I' && s[|s| - 1] == 'y';
    }
  }

  // ---------------------------------------------------------- parse and format

  /** A line counts when a colon comes after at least one character and a number follows. */
  function ParseLine(n: Numbers, line: string): Option<(string, Number)> {
    var i := IndexOf(line, ':');
    if i == 0 || i == |line| then None
    else
      match n.parse(Trim(line[i + 1..]))
      case None => None
      case Some(v) => Some((Trim(line[..i]), v))
  }

  function WithLine(n: Numbers, items: map<string, Number>, line: string): map<string, Number> {
    match ParseLine(n, line)
    case None => items
    case Some((key, v)) => items[key := v]
  }

  function Accumulate(n: Numbers, lines: seq<string>): map<string, Number> {
    if lines == [] then map[] else WithLine(n, Accumulate(n, lines[..|lines| - 1]), lines[|lines| - 1])
  }

  function NonEmpty(items: map<string, Number>): Option<map<string, Number>> {
    if items == map[] then None else Some(items)
  }

  function Parse(n: Numbers, text: string): Option<map<string, Number>> {
    if Trim(text) == "" then None else NonEmpty(Accumulate(n, Split(text)))
  }

  function FormatLine(n: Numbers, key: string, v: Number): string {
    key + (": " + n.print_(v))
  }

  ghost predicate Enumerates(items: map<string, Number>, order: seq<string>) {
    && (forall k :: k in order <==> k in items)
    && forall i, j :: 0 <= i < j < |order| ==> order[i] != order[j]
  }

  function FormatLines(n: Numbers, items: map<string, Number>, order: seq<string>): (lines: seq<string>)
    requires forall k :: k in order ==> k in items
    ensures |lines| == |order|
  {
    if order == [] then []
    else
      var last := order[|order| - 1];
      FormatLines(n, items, order[..|order| - 1]) + [FormatLine(n, last, items[last])]
  }

  /** formatLineItems, for keys listed in any order. */
  function Format(n: Numbers, items: Option<map<string, Number>>, order: seq<string>): string
    requires items.Some? ==> forall k :: k in order ==> k in items.value
  {
    if items.None? || order == [] then "" else Join(FormatLines(n, items.value, order))
  }

  method ParseLineItems(n: Numbers, text: string) returns (items: Option<map<string, Number>>)
    ensures items == Parse(n, text)
  {
    if Trim(text) == "" {
      return None;
    }
    var result := map[];
    var lines := Split(text);
    for i := 0 to |lines|
      invariant result == Accumulate(n, lines[..i])
    {
      assert lines[..i + 1][..i] == lines[..i];
      result := AddLine(n, result, lines[i]);
    }
    assert lines[..|lines|] == lines;
    items := if result == map[] then None else Some(result);
  }

  method AddLine(n: Numbers, items: map<string, Number>, line: string) returns (result: map<string, Number>)
    ensures result == WithLine(n, items, line)
  {
    result := items;
    var colon := IndexOf(line, ':');
    if 0 < colon < |line| {
      var key := Trim(line[..colon]);
      var v := n.parse(Trim(line[colon + 1..]));
      if v.Some? {
        result := result[key := v.value];
      }
    }
  }

  // ------------------------------------------------------------ facts on text

  lemma {:induction false} TrimEndTrims(s: string)
    ensures var e := TrimEnd(s); |e| <= |s| && e == s[..|e|] && (e != "" ==> !IsSpace(e[|e| - 1]))
  {
    if s != "" && IsSpace(s[|s| - 1]) {
      TrimEndTrims(s[..|s| - 1]);
    }
  }

  lemma {:induction false} TrimStartTrims(s: string)
    ensures var b := TrimStart(s); |b| <= |s| && b == s[|s| - |b|..] && (b != "" ==> !IsSpace(b[0]))
  {
    if s != "" && IsSpace(s[0]) {
      TrimStartTrims(s[1..]);
    }
  }

  lemma TrimIsTrimmed(s: string)
    ensures Trimmed(Trim(s)) && forall c :: c in Trim(s) ==> c in s
  {
    TrimStartTrims(s);
    TrimEndTrims(TrimStart(s));
  }

  lemma TrimmedStays(s: string)
    requires Trimmed(s)
    ensures Trim(s) == s && Trim(" " + s) == s
  {
    assert (" " + s)[1..] == s;
    assert TrimStart(s) == s;
    assert TrimStart(" " + s) == TrimStart(s);
  }

  /** Trimming leaves something exactly when some character is not a space. */
  lemma {:induction false} SomethingLeft(s: string, c: char)
    requires c in s && !IsSpace(c)
    ensures Trim(s) != ""
  {
    if IsSpace(s[0]) {
      SomethingLeft(s[1..], c);
    } else {
      TrimEndKeeps(s);
    }
  }

  lemma {:induction false} TrimEndKeeps(s: string)
    requires s != "" && !IsSpace(s[0])
    ensures TrimEnd(s) != ""
  {
    if IsSpace(s[|s| - 1]) {
      TrimEndKeeps(s[..|s| - 1]);
    }
  }

  lemma {:induction false} IndexOfFirst(a: string, c: char, b: string)
    requires c !in a
    ensures IndexOf(a + ([c] + b), c) == |a|
  {
    var s := a + ([c] + b);
    if a != "" {
      assert s[1..] == a[1..] + ([c] + b);
      IndexOfFirst(a[1..], c, b);
    }
  }

  lemma NotFound(a: string, c: char)
    requires c !in a
    ensures IndexOf(a, c) == |a|
  {
  }

  lemma {:induction false} SplitJoin(lines: seq<string>)
    requires lines != [] && forall line :: line in lines ==> '\n' !in line
    ensures Split(Join(lines)) == lines
  {
    if |lines| == 1 {
      NotFound(lines[0], '\n');
    } else {
      var text := Join(lines);
      var rest := Join(lines[1..]);
      IndexOfFirst(lines[0], '\n', rest);
      assert text[..|lines[0]|] == lines[0] && text[|lines[0]| + 1..] == rest;
      SplitJoin(lines[1..]);
    }
  }

  lemma {:induction false} JoinHolds(lines: seq<string>, c: char)
    requires lines != [] && c in lines[0]
    ensures c in Join(lines)
  {
  }

  lemma {:induction false} SplitLines(text: string)
    ensures forall line :: line in Split(text) ==> '\n' !in line
    decreases |text|
  {
    var i := IndexOf(text, '\n');
    if i < |text| {
      SplitLines(text[i + 1..]);
      assert Split(text) == [text[..i]] + Split(text[i + 1..]);
    } else {
      assert text[..i] == text && Split(text) == [text];
    }
  }

  // -------------------------------------------------------------- round trips

  /** Keys that a parse can yield. */
  predicate PlainKey(key: string) {
    Trimmed(key) && ':' !in key && '\n' !in key
  }

  predicate PlainKeys(items: map<string, Number>) {
    forall k :: k in items ==> PlainKey(k)
  }

  /** The parts of a printed line. */
  lemma LineParts(key: string, number: string)
    requires ':' !in key
    ensures var line := key + (": " + number);
            IndexOf(line, ':') == |key| && line[..|key|] == key && line[|key| + 1..] == " " + number
  {
    var line := key + (": " + number);
    assert line == key + ([':'] + (" " + number));
    IndexOfFirst(key, ':', " " + number);
  }

  lemma ParseParts(n: Numbers, line: string, i: nat, key: string, number: string)
    requires i < |line| && IndexOf(line, ':') == i && Trim(line[..i]) == key && Trim(line[i + 1..]) == number
    ensures ParseLine(n, line) == if i == 0 || n.parse(number).None? then None else Some((key, n.parse(number).value))
  {
  }

  /** A printed line reads back as its item, unless its label is blank. */
  lemma LineReadsBack(n: Numbers, key: string, v: Number)
    requires Sound(n) && PlainKey(key)
    ensures ParseLine(n, FormatLine(n, key, v)) == if key == "" then None else Some((key, v))
  {
    var number := n.print_(v);
    assert ReadsBack(n, v);
    LineParts(key, number);
    TrimmedStays(key);
    TrimmedStays(number);
    ParseParts(n, FormatLine(n, key, v), |key|, key, number);
  }

  function Labelled(items: map<string, Number>, keys: seq<string>): map<string, Number> {
    map k | k in items && k in keys && k != "" :: items[k]
  }

  lemma LabelledAppended(items: map<string, Number>, keys: seq<string>, key: string)
    requires key in items && key !in keys
    ensures Labelled(items, keys + [key]) ==
            if key == "" then Labelled(items, keys) else Labelled(items, keys)[key := items[key]]
  {
  }

  lemma {:induction false} LinesReadBack(n: Numbers, items: map<string, Number>, order: seq<string>)
    requires Sound(n) && PlainKeys(items)
    requires forall k :: k in order ==> k in items
    requires forall i, j :: 0 <= i < j < |order| ==> order[i] != order[j]
    ensures Accumulate(n, FormatLines(n, items, order)) == Labelled(items, order)
  {
    if order != [] {
      var m := |order| - 1;
      var key := order[m];
      LinesReadBack(n, items, order[..m]);
      assert FormatLines(n, items, order)[..m] == FormatLines(n, items, order[..m]);
      LineReadsBack(n, key, items[key]);
      LabelledAppended(items, order[..m], key);
      assert order[..m] + [key] == order;
    }
  }

  lemma {:induction false} NoBreaks(n: Numbers, items: map<string, Number>, order: seq<string>, line: string)
    requires Sound(n) && PlainKeys(items)
    requires forall k :: k in order ==> k in items
    requires line in FormatLines(n, items, order)
    ensures '\n' !in line && ':' in line
  {
    var m := |order| - 1;
    var key := order[m];
    if line == FormatLine(n, key, items[key]) {
      assert PlainKey(key);
      assert ReadsBack(n, items[key]);
      assert line == key + ": " + n.print_(items[key]);
      assert line[|key|] == ':';
    } else {
      NoBreaks(n, items, order[..m], line);
    }
  }

  /** The printed text splits into the printed lines, and trimming does not empty it. */
  lemma FormattedText(n: Numbers, items: map<string, Number>, order: seq<string>)
    requires Sound(n) && PlainKeys(items) && order != []
    requires forall k :: k in order ==> k in items
    ensures var text := Format(n, Some(items), order);
            Split(text) == FormatLines(n, items, order) && Trim(text) != ""
  {
    var lines := FormatLines(n, items, order);
    forall line | line in lines
      ensures '\n' !in line && ':' in line
    {
      NoBreaks(n, items, order, line);
    }
    SplitJoin(lines);
    assert lines[0] in lines;
    JoinHolds(lines, ':');
    SomethingLeft(Join(lines), ':');
  }

  lemma AllLabelled(items: map<string, Number>, order: seq<string>)
    requires Enumerates(items, order)
    ensures Labelled(items, order) == items - {""}
  {
  }

  lemma LinesOfText(n: Numbers, text: string, lines: seq<string>)
    requires Split(text) == lines && Trim(text) != ""
    ensures Parse(n, text) == NonEmpty(Accumulate(n, lines))
  {
  }

  /** Printing and reading back keeps every item with a label, whatever the order of printing: the only
      loss is an item whose label is blank. */
  lemma FormatThenParse(n: Numbers, items: map<string, Number>, order: seq<string>)
    requires Sound(n) && PlainKeys(items) && Enumerates(items, order) && items != map[]
    ensures Parse(n, Format(n, Some(items), order)) == NonEmpty(items - {""})
  {
    var k :| k in items;
    assert k in order;
    FormattedText(n, items, order);
    LinesReadBack(n, items, order);
    AllLabelled(items, order);
    LinesOfText(n, Format(n, Some(items), order), FormatLines(n, items, order));
  }

  lemma LineKeyPlain(n: Numbers, line: string)
    requires '\n' !in line && ParseLine(n, line).Some?
    ensures PlainKey(ParseLine(n, line).value.0)
  {
    var key := line[..IndexOf(line, ':')];
    TrimIsTrimmed(key);
    assert forall c :: c in key ==> c in line;
  }

  lemma {:induction false} ParsedKeysPlain(n: Numbers, lines: seq<string>)
    requires forall line :: line in lines ==> '\n' !in line
    ensures PlainKeys(Accumulate(n, lines))
  {
    if lines != [] {
      var last := lines[|lines| - 1];
      ParsedKeysPlain(n, lines[..|lines| - 1]);
      if ParseLine(n, last).Some? {
        LineKeyPlain(n, last);
      }
    }
  }

  lemma ParsedItems(n: Numbers, text: string)
    requires Parse(n, text).Some?
    ensures PlainKeys(Parse(n, text).value) && Parse(n, text).value != map[]
  {
    SplitLines(text);
    ParsedKeysPlain(n, Split(text));
  }

  lemma SameWithoutBlank(items: map<string, Number>)
    requires items != map[]
    ensures NonEmpty(items - {""}) == Some(items) <==> "" !in items
  {
    if "" in items {
      assert "" !in items - {""};
    } else {
      assert items - {""} == items;
    }
  }

  /** The editor's guarantee: what it shows for stored items saves the same items, exactly when every label
      is trimmed, not blank, and free of colons and line breaks. */
  lemma StoredItemsSurvive(n: Numbers, items: map<string, Number>, order: seq<string>)
    requires Sound(n) && Enumerates(items, order) && items != map[]
    ensures Parse(n, Format(n, Some(items), order)) == Some(items) <==> PlainKeys(items) && "" !in items
  {
    var text := Format(n, Some(items), order);
    if Parse(n, text) == Some(items) {
      ParsedItems(n, text);
    }
    if PlainKeys(items) {
      FormatThenParse(n, items, order);
      SameWithoutBlank(items);
    }
  }

  /** Saving what the editor shows for a parsed text changes nothing exactly when the parse produced no
      blank label. */
  lemma ParseFormatParse(n: Numbers, text: string, order: seq<string>)
    requires Sound(n)
    requires Parse(n, text).Some? ==> Enumerates(Parse(n, text).value, order)
    ensures Parse(n, Format(n, Parse(n, text), order)) == Parse(n, text) <==>
            (Parse(n, text).Some? ==> "" !in Parse(n, text).value)
  {
    var parsed := Parse(n, text);
    if parsed.Some? {
      ParsedItems(n, text);
      FormatThenParse(n, parsed.value, order);
      SameWithoutBlank(parsed.value);
    }
  }

  /** The white space of ECMAScript and its line terminators, by code point. */
  lemma SpacesExactly(c: char)
    ensures IsSpace(c) <==>
            c as int in {0x9, 0xA, 0xB, 0xC, 0xD, 0x20, 0xA0, 0x1680, 0x2000, 0x2001, 0x2002, 0x2003, 0x2004, 0x2005,
                         0x2006, 0x2007, 0x2008, 0x2009, 0x200A, 0x2028, 0x2029, 0x202F, 0x205F, 0x3000, 0xFEFF}
  {
  }

  /** Trimming takes white space off both ends, and all of it. */
  lemma TrimExactly(s: string)
    ensures exists a, b :: s == a + Trim(s) + b && AllSpace(a) && AllSpace(b)
    ensures Trim(s) != "" ==> !IsSpace(Trim(s)[0]) && !IsSpace(Trim(s)[|Trim(s)| - 1])
  {
    TrimIsTrimmed(s);
    var rest := TrimStart(s);
    StartTaken(s);
    EndTaken(rest);
    var a, b := s[..|s| - |rest|], rest[|Trim(s)|..];
    assert s == a + Trim(s) + b;
  }

  predicate AllSpace(s: string) {
    forall c :: c in s ==> IsSpace(c)
  }

  lemma {:induction false} StartTaken(s: string)
    ensures var b := TrimStart(s); |b| <= |s| && b == s[|s| - |b|..] && AllSpace(s[..|s| - |b|])
  {
    if s != "" && IsSpace(s[0]) {
      StartTaken(s[1..]);
      var b := TrimStart(s);
      assert s[..|s| - |b|] == [s[0]] + s[1..][..|s| - 1 - |b|];
    }
  }

  lemma {:induction false} EndTaken(s: string)
    ensures var e := TrimEnd(s); |e| <= |s| && e == s[..|e|] && AllSpace(s[|e|..])
  {
    if s != "" && IsSpace(s[|s| - 1]) {
      EndTaken(s[..|s| - 1]);
      var e := TrimEnd(s);
      assert s[|e|..] == s[..|s| - 1][|e|..] + [s[|s| - 1]];
    }
  }

  /** A line counts exactly when it splits at a colon, its first and not its first character, into a label
      and a number; trimmed, they are its item. */
  lemma LineExactly(n: Numbers, line: string)
    ensures ParseLine(n, line).Some? <==>
            exists i :: 0 < i < |line| && line[i] == ':' && ':' !in line[..i] && n.parse(Trim(line[i + 1..])).Some?
    ensures forall i :: 0 < i < |line| && line[i] == ':' && ':' !in line[..i] && ParseLine(n, line).Some? ==>
              ParseLine(n, line).value.0 == Trim(line[..i])
              && n.parse(Trim(line[i + 1..])) == Some(ParseLine(n, line).value.1)
  {
    forall i | 0 <= i < |line| && line[i] == ':' && ':' !in line[..i]
      ensures IndexOf(line, ':') == i
    {
      IndexOfFirst(line[..i], ':', line[i + 1..]);
      assert line == line[..i] + ([':'] + line[i + 1..]);
    }
    assert IndexOf(line, ':') < |line| ==> line[IndexOf(line, ':')] == ':';
  }

  /** The text shown has one line for each item, in the order given: label, colon, space, number. */
  lemma PrintedExactly(n: Numbers, items: map<string, Number>, order: seq<string>)
    requires Sound(n) && PlainKeys(items) && order != []
    requires forall k :: k in order ==> k in items
    ensures var lines := Split(Format(n, Some(items), order));
            |lines| == |order| && forall i :: 0 <= i < |order| ==>
                lines[i] == order[i] + ": " + n.print_(items[order[i]])
  {
    FormattedText(n, items, order);
    forall i | 0 <= i < |order|
      ensures FormatLines(n, items, order)[i] == order[i] + ": " + n.print_(items[order[i]])
    {
      PrintedLine(n, items, order, i);
    }
  }

  lemma {:induction false} PrintedLine(n: Numbers, items: map<string, Number>, order: seq<string>, i: nat)
    requires i < |order| && forall k :: k in order ==> k in items
    ensures FormatLines(n, items, order)[i] == order[i] + ": " + n.print_(items[order[i]])
  {
    var m := |order| - 1;
    if i < m {
      PrintedLine(n, items, order[..m], i);
    } else {
      assert order[m] + (": " + n.print_(items[order[m]])) == order[m] + ": " + n.print_(items[order[m]]);
    }
  }

  /** A text with a blank label before the colon: its item is parsed, and lost when printed and parsed. */
  lemma BlankLabelLost(n: Numbers, v: Number)
    requires Sound(n)
    ensures Parse(n, " :" + n.print_(v)) == Some(map["" := v])
    ensures Parse(n, Format(n, Some(map["" := v]), [""])) == None
  {
    var text := " :" + n.print_(v);
    assert ReadsBack(n, v);
    BlankLine(n, text, v);
    NoBreakOneLine(text);
    assert text[1] == ':';
    SomethingLeft(text, ':');
    assert Accumulate(n, [text]) == WithLine(n, Accumulate(n, []), text) by {
      assert [text][..0] == [];
    }
    LinesOfText(n, text, [text]);
    var items := map["" := v];
    assert PlainKeys(items) && Enumerates(items, [""]) && "" in items;
    FormatThenParse(n, items, [""]);
    assert items - {""} == map[];
  }

  lemma NoBreakOneLine(text: string)
    requires '\n' !in text
    ensures Split(text) == [text]
  {
    NotFound(text, '\n');
  }

  lemma BlankLine(n: Numbers, text: string, v: Number)
    requires Sound(n) && text == " :" + n.print_(v)
    ensures ParseLine(n, text) == Some(("", v))
  {
    assert ReadsBack(n, v);
    IndexOfFirst(" ", ':', n.print_(v));
    assert text == " " + ([':'] + n.print_(v));
    TrimmedStays("");
    TrimmedStays(n.print_(v));
    assert text[..1] == " " + "" && text[2..] == n.print_(v);
    ParseParts(n, text, 1, "", n.print_(v));
  }

  /** A line accepted with the given label. */
  predicate Gives(n: Numbers, line: string, key: string) {
    ParseLine(n, line).Some? && ParseLine(n, line).value.0 == key
  }

  /** Line `i` gives `key`, and no later line does. */
  predicate LastFor(n: Numbers, lines: seq<string>, key: string, i: nat) {
    i < |lines| && Gives(n, lines[i], key) && forall j :: i < j < |lines| ==> !Gives(n, lines[j], key)
  }

  lemma LastForBefore(n: Numbers, lines: seq<string>, key: string, i: nat)
    requires lines != [] && !Gives(n, lines[|lines| - 1], key)
    ensures LastFor(n, lines[..|lines| - 1], key, i) <==> LastFor(n, lines, key, i)
  {
    var before := lines[..|lines| - 1];
    assert forall j :: 0 <= j < |before| ==> before[j] == lines[j];
  }

  lemma OtherLineKeeps(n: Numbers, items: map<string, Number>, line: string, key: string)
    requires !Gives(n, line, key)
    ensures key in WithLine(n, items, line) <==> key in items
    ensures key in items ==> WithLine(n, items, line)[key] == items[key]
  {
  }

  /** A parsed key has the number of the last accepted line with that label. */
  lemma {:induction false} LastLineWins(n: Numbers, lines: seq<string>, key: string)
    ensures key in Accumulate(n, lines) <==> exists i: nat :: LastFor(n, lines, key, i)
    ensures forall i: nat :: LastFor(n, lines, key, i) ==>
              key in Accumulate(n, lines) && Accumulate(n, lines)[key] == ParseLine(n, lines[i]).value.1
  {
    if lines != [] {
      var m := |lines| - 1;
      LastLineWins(n, lines[..m], key);
      if Gives(n, lines[m], key) {
        assert LastFor(n, lines, key, m);
      } else {
        OtherLineKeeps(n, Accumulate(n, lines[..m]), lines[m], key);
        forall i: nat
          ensures LastFor(n, lines[..m], key, i) <==> LastFor(n, lines, key, i)
        {
          LastForBefore(n, lines, key, i);
        }
      }
    }
  }
}
