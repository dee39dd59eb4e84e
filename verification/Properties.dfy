/** Properties files: the character-driven parser, the list it fills, and the writer. */
module Properties {
  import opened Options

  const MAX_PROPERTY_NAME_LENGTH: nat := 100
  const MAX_PROPERTY_VALUE_LENGTH: nat := 500
  const READ_SIZE: nat := 500

  datatype Property = Property(name: string, value: string)

  datatype State = WaitForName | CopyName | WaitForValue | CopyValue | IgnoreComment

  predicate IsValidNameChar(ch: char) {
    ('A' <= ch <= 'Z') || ('a' <= ch <= 'z') || ('0' <= ch <= '9') || ch == '_' || ch == '-' || ch == '.'
  }

  predicate IsBlank(ch: char) {
    ch == ' ' || ch == '\t'
  }

  predicate IsPrintable(ch: char) {
    ' ' <= ch <= '~'
  }

  // ---------------------------------------------------------------- the parser as a function

  /** The parser: what it waits for, the name and the value that it has read so far, and the properties. */
  datatype Parser = Parser(state: State, name: string, value: string, line: nat, props: seq<Property>)

  predicate Has(props: seq<Property>, name: string) {
    exists i :: 0 <= i < |props| && props[i].name == name
  }

  /** The first property of a name counts. */
  function Add(props: seq<Property>, name: string, value: string): seq<Property> {
    if Has(props, name) then props else props + [Property(name, value)]
  }

  /** Without the blanks at the end, except that the first character stays. */
  function Trimmed(value: string): string {
    if |value| > 1 && IsBlank(value[|value| - 1]) then Trimmed(value[..|value| - 1]) else value
  }

  function EndLine(p: Parser, value: string): Parser {
    Parser(WaitForName, "", "", p.line + 1, Add(p.props, p.name, value))
  }

  /** The next state, or None if the character is refused. */
  function Step(p: Parser, ch: char): (next: Parser?)
  {
    if ch == '\r' then Next(p)
    else
      match p.state
      case WaitForName =>
        if IsBlank(ch) then Next(p)
        else if ch == '\n' then Next(p.(line := p.line + 1))
        else if ch == '#' then Next(p.(state := IgnoreComment))
        else if IsValidNameChar(ch) then Next(p.(state := CopyName, name := [ch]))
        else Refused
      case CopyName =>
        if IsValidNameChar(ch) then
          if |p.name| >= MAX_PROPERTY_NAME_LENGTH - 2 then Refused else Next(p.(name := p.name + [ch]))
        else if ch == '=' || IsBlank(ch) then Next(p.(state := WaitForValue))
        else if ch == '\n' then Next(EndLine(p, ""))
        else Refused
      case WaitForValue =>
        if IsBlank(ch) || ch == '=' then Next(p)
        else if ch == '\n' then Next(EndLine(p, ""))
        else if ' ' < ch <= '~' then Next(p.(state := CopyValue, value := [ch]))
        else Refused
      case CopyValue =>
        if ch == '\n' then Next(EndLine(p, Trimmed(p.value)))
        else if !IsPrintable(ch) || |p.value| >= MAX_PROPERTY_VALUE_LENGTH - 2 then Refused
        else Next(p.(value := p.value + [ch]))
      case IgnoreComment =>
        if ch == '\n' then Next(p.(state := WaitForName, line := p.line + 1)) else Next(p)
  }

  datatype Parser? = Refused | Next(parser: Parser)

  /** Reads characters up to the end or the first one that is refused. */
  function ParseAll(p: Parser, text: string): (Parser, bool)
    decreases text
  {
    if text == "" then (p, true)
    else match Step(p, text[0])
         case Refused => (p, false)
         case Next(q) => ParseAll(q, text[1..])
  }

  /** What Load does: a fresh list, the text, and an empty line at its end. */
  function Loaded(p: Parser, text: string): (Parser, bool) {
    ParseAll(p.(line := 1, props := []), text + "\n")
  }

  // ---------------------------------------------------------------- files

  /** What a read yields: up to READ_SIZE characters, or nothing because it fails. */
  datatype Read = Piece(text: string) | Failure

  predicate Readable(pieces: seq<Read>) {
    forall i :: 0 <= i < |pieces| ==> pieces[i].Piece? ==> 0 < |pieces[i].text| <= READ_SIZE
  }

  /** The text up to the end of the file or to the first read that fails. */
  function TextOf(pieces: seq<Read>): string {
    if pieces == [] || pieces[0] == Failure then "" else pieces[0].text + TextOf(pieces[1..])
  }

  predicate Complete(pieces: seq<Read>) {
    pieces == [] || (pieces[0].Piece? && Complete(pieces[1..]))
  }

  lemma {:induction false} CompleteIs(pieces: seq<Read>)
    ensures Complete(pieces) <==> forall i :: 0 <= i < |pieces| ==> pieces[i] != Failure
  {
    if pieces != [] {
      CompleteIs(pieces[1..]);
      if Complete(pieces) {
        assert forall i :: 1 <= i < |pieces| ==> pieces[i] == pieces[1..][i - 1];
      } else if pieces[0].Piece? {
        var i :| 0 <= i < |pieces[1..]| && pieces[1..][i] == Failure;
        assert pieces[i + 1] == Failure;
      }
    }
  }

  function Cleared(p: Parser): Parser {
    p.(line := 1, props := [])
  }

  /** Where reading leaves the parser, and whether it got to the end of the file. */
  function Rest(p: Parser, pieces: seq<Read>): (Parser, bool) {
    var (q, ok) := ParseAll(p, TextOf(pieces)); (q, ok && Complete(pieces))
  }

  /** What Load does with a file: a complete one is loaded as its text, any other is refused. */
  function LoadedFrom(p: Parser, file: Option<seq<Read>>): (Parser, bool) {
    match file
    case None => (Cleared(p), false)
    case Some(pieces) =>
      if Complete(pieces) then Loaded(p, TextOf(pieces)) else (ParseAll(Cleared(p), TextOf(pieces)).0, false)
  }

  /** The next read of a file. */
  lemma NextRead(q: Parser, pieces: seq<Read>, k: nat)
    requires k < |pieces|
    ensures Rest(q, pieces[k..])
            == match pieces[k]
               case Failure => (q, false)
               case Piece(text) => (var (r, ok) := ParseAll(q, text); if ok then Rest(r, pieces[k + 1..]) else (r, false))
  {
    assert pieces[k..][1..] == pieces[k + 1..];
    if pieces[k].Piece? {
      ParseAppend(q, pieces[k].text, TextOf(pieces[k + 1..]));
    }
  }

  function Line(p: Property): string {
    p.name + "=" + p.value + "\n"
  }

  function Saved(props: seq<Property>): string {
    if props == [] then "" else Saved(props[..|props| - 1]) + Line(props[|props| - 1])
  }

  const FRESH := Parser(WaitForName, "", "", 1, [])

  predicate AtStart(p: Parser) {
    p.state == WaitForName && p.name == "" && p.value == ""
  }

  lemma {:induction false} ParseAppend(p: Parser, s: string, t: string)
    ensures ParseAll(p, s + t) == (var (q, ok) := ParseAll(p, s); if ok then ParseAll(q, t) else (q, false))
    decreases |s|
  {
    if s == "" {
      assert s + t == t;
    } else {
      assert (s + t)[1..] == s[1..] + t;
      match Step(p, s[0])
      case Refused =>
      case Next(q) => ParseAppend(q, s[1..], t);
    }
  }

  // ---------------------------------------------------------------- what the parser accepts

  predicate IsName(name: string) {
    0 < |name| <= MAX_PROPERTY_NAME_LENGTH - 2 && forall i :: 0 <= i < |name| ==> IsValidNameChar(name[i])
  }

  /** The beginning of a value: no blank or '=' in front, printable, and short enough. */
  predicate IsValueStart(value: string) {
    && |value| <= MAX_PROPERTY_VALUE_LENGTH - 2
    && (value != "" ==> ' ' < value[0] && value[0] != '=')
    && forall i :: 0 <= i < |value| ==> IsPrintable(value[i])
  }

  /** A value that can be stored: one without blanks at its end as well. */
  predicate IsValue(value: string) {
    IsValueStart(value) && (|value| > 1 ==> !IsBlank(value[|value| - 1]))
  }

  predicate Storable(p: Property) {
    IsName(p.name) && IsValue(p.value)
  }

  ghost predicate Distinct(props: seq<Property>) {
    forall i, j :: 0 <= i < j < |props| ==> props[i].name != props[j].name
  }

  ghost predicate GoodList(props: seq<Property>) {
    Distinct(props) && forall i :: 0 <= i < |props| ==> Storable(props[i])
  }

  predicate GoodState(p: Parser) {
    match p.state
    case WaitForName => p.name == "" && p.value == ""
    case IgnoreComment => p.name == "" && p.value == ""
    case CopyName => IsName(p.name) && p.value == ""
    case WaitForValue => IsName(p.name) && p.value == ""
    case CopyValue => IsName(p.name) && IsValueStart(p.value) && p.value != ""
  }

  ghost predicate Good(p: Parser) {
    GoodState(p) && GoodList(p.props)
  }

  lemma {:induction false} TrimmedIsValue(value: string)
    requires IsValueStart(value)
    ensures IsValue(Trimmed(value))
    decreases |value|
  {
    if |value| > 1 && IsBlank(value[|value| - 1]) {
      TrimmedIsValue(value[..|value| - 1]);
    }
  }

  lemma AddKeepsGood(props: seq<Property>, name: string, value: string)
    requires GoodList(props) && IsName(name) && IsValue(value)
    ensures GoodList(Add(props, name, value))
  {
  }

  lemma StepKeepsGood(p: Parser, ch: char)
    requires Good(p) && Step(p, ch).Next?
    ensures Good(Step(p, ch).parser)
  {
    if p.state.CopyValue? {
      TrimmedIsValue(p.value);
      AddKeepsGood(p.props, p.name, Trimmed(p.value));
    } else if p.state.CopyName? || p.state.WaitForValue? {
      AddKeepsGood(p.props, p.name, "");
    }
  }

  lemma {:induction false} ParseKeepsGood(p: Parser, text: string)
    requires Good(p)
    ensures Good(ParseAll(p, text).0)
    decreases |text|
  {
    if text != "" && Step(p, text[0]).Next? {
      StepKeepsGood(p, text[0]);
      ParseKeepsGood(Step(p, text[0]).parser, text[1..]);
    }
  }

  /** Whatever state a load begins in, if it is accepted the parser is left in its start state. */
  lemma AcceptedLeavesStart(p: Parser, text: string)
    requires GoodState(p)
    ensures var (q, ok) := Loaded(p, text); GoodList(q.props) && (ok ==> AtStart(q))
  {
    var p' := p.(line := 1, props := []);
    ParseAppend(p', text, "\n");
    ParseKeepsGood(p', text);
    var (q, ok) := ParseAll(p', text);
    if ok {
      ParseOne(q, '\n');
      StepKeepsGood(q, '\n');
    }
    ParseKeepsGood(p', text + "\n");
  }

  lemma ParseOne(p: Parser, ch: char)
    ensures ParseAll(p, [ch]) == match Step(p, ch) case Refused => (p, false) case Next(q) => (q, true)
  {
    match Step(p, ch)
    case Refused =>
    case Next(q) => assert ParseAll(q, [ch][1..]) == (q, true);
  }

  // ---------------------------------------------------------------- reading back what was written

  lemma {:induction false} ReadName(p: Parser, name: string)
    requires AtStart(p) && 0 < |name| <= MAX_PROPERTY_NAME_LENGTH - 2
    requires forall i :: 0 <= i < |name| ==> IsValidNameChar(name[i])
    ensures ParseAll(p, name) == (p.(state := CopyName, name := name), true)
    decreases |name|
  {
    var n := |name| - 1;
    assert name == name[..n] + [name[n]];
    ParseAppend(p, name[..n], [name[n]]);
    if n == 0 {
      ParseOne(p, name[0]);
    } else {
      ReadName(p, name[..n]);
      ParseOne(p.(state := CopyName, name := name[..n]), name[n]);
    }
  }

  lemma {:induction false} ReadValue(p: Parser, value: string)
    requires p.state == WaitForValue && IsValueStart(value) && value != ""
    ensures ParseAll(p, value) == (p.(state := CopyValue, value := value), true)
    decreases |value|
  {
    var n := |value| - 1;
    assert value == value[..n] + [value[n]];
    ParseAppend(p, value[..n], [value[n]]);
    if n == 0 {
      ParseOne(p, value[0]);
    } else {
      ReadValue(p, value[..n]);
      ParseOne(p.(state := CopyValue, value := value[..n]), value[n]);
    }
  }

  lemma ReadLine(p: Parser, prop: Property)
    requires AtStart(p) && Storable(prop)
    ensures ParseAll(p, Line(prop)) == (p.(line := p.line + 1, props := Add(p.props, prop.name, prop.value)), true)
  {
    hide ParseAll, Add;
    var named := p.(state := CopyName, name := prop.name);
    var waiting := named.(state := WaitForValue);
    ReadName(p, prop.name);
    ParseAppend(p, prop.name, "=");
    ParseOne(named, '=');
    ParseAppend(p, prop.name + "=", prop.value);
    if prop.value != "" {
      ReadValue(waiting, prop.value);
    } else {
      assert prop.name + "=" + prop.value == prop.name + "=";
    }
    ParseAppend(p, prop.name + "=" + prop.value, "\n");
    var last := if prop.value == "" then waiting else waiting.(state := CopyValue, value := prop.value);
    ParseOne(last, '\n');
  }

  lemma AddedLast(props: seq<Property>, rest: seq<Property>, last: Property)
    requires Distinct(props) && props == rest + [last]
    ensures Add(rest, last.name, last.value) == props
  {
    assert props[|rest|] == last;
    assert forall i :: 0 <= i < |rest| ==> rest[i] == props[i];
    assert last == Property(last.name, last.value);
  }

  /** One more line behind what was read already. */
  lemma ReadOneMoreLine(p: Parser, text: string, q: Parser, last: Property)
    requires ParseAll(p, text) == (q, true) && AtStart(q) && Storable(last)
    ensures ParseAll(p, text + Line(last)) == (q.(line := q.line + 1, props := Add(q.props, last.name, last.value)), true)
  {
    ParseAppend(p, text, Line(last));
    ReadLine(q, last);
  }

  lemma {:induction false} ReadSaved(p: Parser, props: seq<Property>)
    requires AtStart(p) && p.props == [] && GoodList(props)
    ensures ParseAll(p, Saved(props)) == (p.(line := p.line + |props|, props := props), true)
    decreases |props|
  {
    if props != [] {
      var n := |props| - 1;
      var rest, last := props[..n], props[n];
      assert props == rest + [last];
      ReadSaved(p, rest);
      ReadOneMoreLine(p, Saved(rest), p.(line := p.line + n, props := rest), last);
      AddedLast(props, rest, last);
    }
  }

  /** Main result. Whatever a load accepted, saving the properties and loading that again gives the same list. */
  lemma RoundTrip(p: Parser, text: string)
    requires GoodState(p) && Loaded(p, text).1
    ensures var q := Loaded(p, text).0;
            GoodList(q.props) && Loaded(q, Saved(q.props)).1 && Loaded(q, Saved(q.props)).0.props == q.props
  {
    AcceptedLeavesStart(p, text);
    var q := Loaded(p, text).0;
    var q0 := q.(line := 1, props := []);
    ReadSaved(q0, q.props);
    ParseAppend(q0, Saved(q.props), "\n");
    ParseOne(q0.(line := 1 + |q.props|, props := q.props), '\n');
  }

  /** Load does not reset the parser, so it works as with a new parser exactly when the parser is at its start. */
  lemma LoadsAsNewIff(p: Parser)
    requires GoodState(p)
    ensures (forall text :: Loaded(p, text) == Loaded(FRESH, text)) <==> p.state == WaitForName
  {
    var p' := p.(line := 1, props := []);
    if p.state == WaitForName {
      assert p' == FRESH;
    } else if p.state == IgnoreComment {
      ParseTwo(p', 'a', '\n');
      ParseTwo(FRESH, 'a', '\n');
      assert "a" + "\n" == ['a', '\n'];
      assert Loaded(p, "a") != Loaded(FRESH, "a");
    } else {
      ParseOne(p', '\n');
      ParseOne(FRESH, '\n');
      assert "" + "\n" == ['\n'];
      assert |Loaded(p, "").0.props| == 1;
      assert Loaded(p, "") != Loaded(FRESH, "");
    }
  }

  lemma ParseTwo(p: Parser, a: char, b: char)
    ensures ParseAll(p, [a, b]) == match Step(p, a)
                                   case Refused => (p, false)
                                   case Next(q) => (match Step(q, b) case Refused => (q, false) case Next(r) => (r, true))
  {
    ParseOne(p, a);
    ParseAppend(p, [a], [b]);
    assert [a, b] == [a] + [b];
    match Step(p, a)
    case Refused =>
    case Next(q) => ParseOne(q, b);
  }

  // ---------------------------------------------------------------- what the lines of a file may look like

  predicate Over(s: string, chars: string) {
    forall i :: 0 <= i < |s| ==> s[i] in chars
  }

  /** A line: nothing, a comment, or a name with what separates it from its value; blanks in front, spaces behind. */
  datatype LineForm =
    | Nothing(lead: string)
    | Comment(lead: string, rest: string)
    | Entry(lead: string, name: string, sep: string, value: string, tail: string)
  {
    predicate Valid() {
      && Over(lead, " \t")
      && match this
         case Nothing(_) => true
         case Comment(_, rest) => '\n' !in rest && '\r' !in rest
         case Entry(_, name, sep, value, tail) =>
           && 0 < |name| <= 98
           && (forall i :: 0 <= i < |name| ==> ('A' <= name[i] <= 'Z') || ('a' <= name[i] <= 'z') || ('0' <= name[i] <= '9') || name[i] in "_-.")
           && Over(sep, " \t=") && Over(tail, " ") && |value| + |tail| <= 498
           && (forall i :: 0 <= i < |value| ==> ' ' <= value[i] <= '~')
           && if value == "" then tail == ""
              else sep != "" && value[0] != ' ' && value[0] != '=' && value[|value| - 1] != ' '
    }

    function Text(): string {
      match this
      case Nothing(lead) => lead
      case Comment(lead, rest) => lead + "#" + rest
      case Entry(lead, name, sep, value, tail) => lead + name + sep + value + tail
    }

    function Line(): string {
      Text() + "\n"
    }

    /** The property that the line gives, if any. */
    function Gives(): seq<Property> {
      if Entry? then [Property(name, value)] else []
    }
  }

  /** The properties of the lines after others: of each name the first one. */
  function Collected(props: seq<Property>, given: seq<Property>): seq<Property> {
    if given == [] then props
    else
      var n := |given| - 1;
      Add(Collected(props, given[..n]), given[n].name, given[n].value)
  }

  /** A property is kept exactly if none with its name was given before; it comes behind those that were. */
  lemma {:induction false} CollectedMeans(given: seq<Property>, x: Property)
    ensures Collected([], []) == []
    ensures Collected([], given + [x]) == Collected([], given) + if exists i :: 0 <= i < |given| && given[i].name == x.name then [] else [x]
  {
    CollectedNames(given, x.name);
    assert (given + [x])[..|given|] == given;
    assert Property(x.name, x.value) == x;
  }

  lemma {:induction false} CollectedNames(given: seq<Property>, name: string)
    ensures Has(Collected([], given), name) <==> exists i :: 0 <= i < |given| && given[i].name == name
    decreases |given|
  {
    if given != [] {
      var n := |given| - 1;
      CollectedNames(given[..n], name);
      CollectedNames(given[..n], given[n].name);
      var before, after := Collected([], given[..n]), Collected([], given);
      assert forall i :: 0 <= i < |before| ==> after[i] == before[i];
      assert given[n].name == name ==> Has(after, name) by {
        if !Has(before, given[n].name) {
          assert after[|before|].name == given[n].name;
        }
      }
      assert Has(before, name) ==> Has(after, name) by {
        if i :| 0 <= i < |before| && before[i].name == name {
          assert after[i].name == name;
        }
      }
    }
  }

  lemma {:induction false} ReadLead(p: Parser, lead: string)
    requires p.state == WaitForName && Over(lead, " \t")
    ensures ParseAll(p, lead) == (p, true)
  {
    if lead != "" {
      assert lead[0] in " \t";
      ReadLead(p, lead[1..]);
    }
  }

  lemma {:induction false} ReadRest(p: Parser, rest: string)
    requires p.state == IgnoreComment && '\n' !in rest
    ensures ParseAll(p, rest) == (p, true)
  {
    if rest != "" {
      assert rest[0] in rest;
      ReadRest(p, rest[1..]);
    }
  }

  lemma {:induction false} ReadSep(p: Parser, sep: string)
    requires p.state == WaitForValue && Over(sep, " \t=")
    ensures ParseAll(p, sep) == (p, true)
  {
    if sep != "" {
      assert sep[0] in " \t=";
      ReadSep(p, sep[1..]);
    }
  }

  lemma {:induction false} TrimTail(value: string, tail: string)
    requires value != "" && !IsBlank(value[|value| - 1]) && Over(tail, " ")
    ensures Trimmed(value + tail) == value
    decreases |tail|
  {
    if tail != "" {
      var n := |tail| - 1;
      assert tail[n] in " ";
      assert (value + tail)[..|value| + n] == value + tail[..n];
      TrimTail(value, tail[..n]);
    } else {
      assert value + tail == value;
    }
  }

  lemma NameIsName(name: string)
    ensures (forall i :: 0 <= i < |name| ==> ('A' <= name[i] <= 'Z') || ('a' <= name[i] <= 'z') || ('0' <= name[i] <= '9') || name[i] in "_-.")
            <==> forall i :: 0 <= i < |name| ==> IsValidNameChar(name[i])
  {
    forall ch: char ensures ch in "_-." <==> ch == '_' || ch == '-' || ch == '.' {
      assert "_-."[0] == '_' && "_-."[1] == '-' && "_-."[2] == '.';
    }
  }

  /** The name of an entry, and what follows it up to the value. */
  lemma ReadNameAndSep(p: Parser, f: LineForm)
    requires AtStart(p) && f.Entry? && f.Valid()
    ensures ParseAll(p, f.lead + f.name + f.sep)
            == (p.(state := if f.sep == "" then CopyName else WaitForValue, name := f.name), true)
  {
    hide ParseAll;
    NameIsName(f.name);
    ReadLead(p, f.lead);
    ParseAppend(p, f.lead, f.name);
    ReadName(p, f.name);
    ParseAppend(p, f.lead + f.name, f.sep);
    var named := p.(state := CopyName, name := f.name);
    if f.sep == "" {
      assert f.lead + f.name + f.sep == f.lead + f.name;
    } else {
      assert f.sep[0] in " \t=";
      assert f.sep == [f.sep[0]] + f.sep[1..];
      ParseOne(named, f.sep[0]);
      ParseAppend(named, [f.sep[0]], f.sep[1..]);
      ReadSep(named.(state := WaitForValue), f.sep[1..]);
    }
  }

  lemma ReadEntry(p: Parser, f: LineForm)
    requires AtStart(p) && f.Entry? && f.Valid()
    ensures ParseAll(p, f.Text() + "\n") == (p.(line := p.line + 1, props := Add(p.props, f.name, f.value)), true)
  {
    hide ParseAll, Add, Over;
    var named := p.(state := if f.sep == "" then CopyName else WaitForValue, name := f.name);
    ReadNameAndSep(p, f);
    ParseAppend(p, f.lead + f.name + f.sep, f.value + f.tail);
    ParseAppend(p, f.Text(), "\n");
    assert f.Text() == f.lead + f.name + f.sep + (f.value + f.tail);
    if f.value == "" {
      assert f.Text() == f.lead + f.name + f.sep;
      ParseOne(named, '\n');
    } else {
      TailIsValue(f);
      ReadValue(named, f.value + f.tail);
      ParseOne(named.(state := CopyValue, value := f.value + f.tail), '\n');
      TrimTail(f.value, f.tail);
    }
  }

  lemma TailIsValue(f: LineForm)
    requires f.Entry? && f.Valid() && f.value != ""
    ensures IsValueStart(f.value + f.tail) && !IsBlank(f.value[|f.value| - 1])
  {
    forall i | 0 <= i < |f.tail| ensures f.tail[i] == ' ' {
      assert f.tail[i] in " ";
    }
  }

  /** What a line does: it is counted, and gives its property if there is none of that name yet. */
  lemma ReadForm(p: Parser, f: LineForm)
    requires AtStart(p) && f.Valid()
    ensures ParseAll(p, f.Text() + "\n") == (p.(line := p.line + 1, props := Collected(p.props, f.Gives())), true)
  {
    hide ParseAll, Add, Over;
    match f
    case Nothing(lead) =>
      ReadLead(p, lead);
      ParseAppend(p, lead, "\n");
      ParseOne(p, '\n');
    case Comment(lead, rest) =>
      var ignoring := p.(state := IgnoreComment);
      ReadLead(p, lead);
      ParseAppend(p, lead, "#");
      ParseOne(p, '#');
      ParseAppend(p, lead + "#", rest);
      ReadRest(ignoring, rest);
      ParseAppend(p, lead + "#" + rest, "\n");
      ParseOne(ignoring, '\n');
    case Entry(_, name, _, value, _) =>
      ReadEntry(p, f);
      assert Collected(p.props, []) == p.props;
      assert f.Gives()[..0] == [];
  }

  // ---------------------------------------------------------------- which files are accepted

  /** What was read of a line so far. */
  predicate Partial(f: LineForm, q: Parser) {
    && Over(f.lead, " \t")
    && match q.state
       case WaitForName => f.Nothing?
       case IgnoreComment => f.Comment? && '\n' !in f.rest && '\r' !in f.rest
       case CopyName => f.Entry? && f.name == q.name && f.sep == f.value == f.tail == "" && IsName(q.name)
       case WaitForValue =>
         f.Entry? && f.name == q.name && f.sep != "" && f.value == f.tail == "" && IsName(q.name) && Over(f.sep, " \t=")
       case CopyValue =>
         && f.Entry? && f.name == q.name && f.sep != "" && f.value == q.value != "" && f.tail == "" && IsName(q.name)
         && Over(f.sep, " \t=") && IsValueStart(q.value)
  }

  lemma PartialStep(f: LineForm, q: Parser, ch: char) returns (f': LineForm)
    requires Partial(f, q) && ch != '\n' && ch != '\r' && Step(q, ch).Next?
    ensures Partial(f', Step(q, ch).parser) && f'.Text() == f.Text() + [ch]
  {
    match q.state
    case WaitForName =>
      f' := if IsBlank(ch) then Nothing(f.lead + [ch]) else if ch == '#' then Comment(f.lead, "") else Entry(f.lead, [ch], "", "", "");
    case IgnoreComment =>
      f' := f.(rest := f.rest + [ch]);
    case CopyName =>
      f' := if IsValidNameChar(ch) then f.(name := f.name + [ch]) else f.(sep := [ch]);
    case WaitForValue =>
      f' := if IsBlank(ch) || ch == '=' then f.(sep := f.sep + [ch]) else f.(value := [ch]);
    case CopyValue =>
      f' := f.(value := f.value + [ch]);
  }

  lemma {:induction false} PartialForm(p: Parser, t: string) returns (f: LineForm)
    requires AtStart(p) && '\n' !in t && '\r' !in t && ParseAll(p, t).1
    ensures Partial(f, ParseAll(p, t).0) && f.Text() == t
    decreases |t|
  {
    if t == "" {
      f := Nothing("");
    } else {
      var n := |t| - 1;
      assert t == t[..n] + [t[n]] && t[n] in t;
      ParseAppend(p, t[..n], [t[n]]);
      f := PartialForm(p, t[..n]);
      ParseOne(ParseAll(p, t[..n]).0, t[n]);
      f := PartialStep(f, ParseAll(p, t[..n]).0, t[n]);
    }
  }

  lemma {:induction false} SplitTail(v: string) returns (value: string, tail: string)
    requires IsValueStart(v) && v != ""
    ensures v == value + tail && value == v[..|value|] && Over(tail, " ") && value != "" && value[|value| - 1] != ' '
    decreases |v|
  {
    var n := |v| - 1;
    if v[n] == ' ' {
      value, tail := SplitTail(v[..n]);
      assert v == v[..n] + [v[n]];
      tail := tail + [v[n]];
    } else {
      value, tail := v, "";
    }
  }

  /** A line that is accepted is of one of these forms. */
  lemma FormOf(p: Parser, line: string) returns (f: LineForm)
    requires AtStart(p) && '\n' !in line && '\r' !in line && ParseAll(p, line + "\n").1
    ensures f.Valid() && f.Text() == line
  {
    ParseAppend(p, line, "\n");
    f := PartialForm(p, line);
    var q := ParseAll(p, line).0;
    if f.Entry? {
        if f.value != "" {
        var value, tail := SplitTail(f.value);
        f := f.(value := value, tail := tail);
      }
    }
  }

  function TextOfForms(forms: seq<LineForm>): string {
    if forms == [] then "" else TextOfForms(forms[..|forms| - 1]) + forms[|forms| - 1].Line()
  }

  function GivenBy(forms: seq<LineForm>): seq<Property> {
    if forms == [] then [] else GivenBy(forms[..|forms| - 1]) + forms[|forms| - 1].Gives()
  }

  predicate AllValid(forms: seq<LineForm>) {
    forall i :: 0 <= i < |forms| ==> forms[i].Valid()
  }

  lemma CollectedMore(props: seq<Property>, given: seq<Property>, f: LineForm)
    ensures Collected(props, given + f.Gives()) == Collected(Collected(props, given), f.Gives())
  {
    if f.Entry? {
      assert (given + f.Gives())[..|given|] == given;
      assert f.Gives()[..0] == [];
    } else {
      assert given + f.Gives() == given;
    }
  }

  lemma {:induction false} ReadForms(p: Parser, forms: seq<LineForm>)
    requires AtStart(p) && AllValid(forms)
    ensures ParseAll(p, TextOfForms(forms)) == (p.(line := p.line + |forms|, props := Collected(p.props, GivenBy(forms))), true)
    decreases |forms|
  {
    hide ParseAll, Collected, TextOfForms, GivenBy;
    if forms == [] {
      ReadNothing(p);
    } else {
      var front, last := forms[..|forms| - 1], forms[|forms| - 1];
      ReadForms(p, front);
      MoreText(front, last, forms);
      CollectedMore(p.props, GivenBy(front), last);
      ReadOneMoreForm(p, TextOfForms(front), p.(line := p.line + |front|, props := Collected(p.props, GivenBy(front))), last);
    }
  }

  lemma ReadNothing(p: Parser)
    ensures ParseAll(p, TextOfForms([])) == (p.(props := Collected(p.props, GivenBy([]))), true)
  {
  }

  lemma MoreText(front: seq<LineForm>, last: LineForm, forms: seq<LineForm>)
    requires forms == front + [last]
    ensures TextOfForms(forms) == TextOfForms(front) + last.Line() && GivenBy(forms) == GivenBy(front) + last.Gives()
  {
    assert forms[..|forms| - 1] == front;
  }

  lemma ReadOneMoreForm(p: Parser, text: string, q: Parser, f: LineForm)
    requires ParseAll(p, text) == (q, true) && AtStart(q) && f.Valid()
    ensures ParseAll(p, text + f.Line()) == (q.(line := q.line + 1, props := Collected(q.props, f.Gives())), true)
  {
    hide ParseAll, Collected;
    ParseAppend(p, text, f.Line());
    ReadForm(q, f);
  }

  /** The last line of a text, and the lines before it. */
  lemma {:induction false} LastLine(v: string) returns (k: nat)
    ensures k <= |v| && '\n' !in v[k..] && (k > 0 ==> v[k - 1] == '\n')
    decreases |v|
  {
    if v == "" || v[|v| - 1] == '\n' {
      k := |v|;
    } else {
      var n := |v| - 1;
      k := LastLine(v[..n]);
      assert v[k..] == v[..n][k..] + [v[n]];
    }
  }

  lemma {:induction false} FormsOf(p: Parser, v: string) returns (forms: seq<LineForm>)
    requires AtStart(p) && '\r' !in v && ParseAll(p, v + "\n").1
    ensures AllValid(forms) && TextOfForms(forms) == v + "\n"
    decreases |v|
  {
    var k := LastLine(v);
    var line := v[k..];
    var front: seq<LineForm>, q := [], p;
    if k > 0 {
      assert v == v[..k - 1] + "\n" + line;
      assert v + "\n" == (v[..k - 1] + "\n") + (line + "\n");
      ParseAppend(p, v[..k - 1] + "\n", line + "\n");
      front := FormsOf(p, v[..k - 1]);
      ReadForms(p, front);
      q := ParseAll(p, v[..k - 1] + "\n").0;
    }
    var f := FormOf(q, line);
    forms := front + [f];
    assert forms[..|front|] == front;
  }

  /** The text without its carriage returns. */
  function WithoutReturns(text: string): string {
    if text == "" then "" else (if text[0] == '\r' then "" else [text[0]]) + WithoutReturns(text[1..])
  }

  lemma {:induction false} ReturnsIgnored(p: Parser, text: string)
    ensures ParseAll(p, text) == ParseAll(p, WithoutReturns(text)) && '\r' !in WithoutReturns(text)
    decreases |text|
  {
    if text != "" {
      match Step(p, text[0])
      case Refused => ReturnsIgnored(p, text[1..]);
      case Next(q) => ReturnsIgnored(q, text[1..]);
      if text[0] != '\r' {
        assert WithoutReturns(text) == [text[0]] + WithoutReturns(text[1..]);
        assert WithoutReturns(text)[1..] == WithoutReturns(text[1..]);
      } else {
        assert WithoutReturns(text) == WithoutReturns(text[1..]);
      }
    }
  }

  lemma {:induction false} WithoutReturnsAppend(s: string, t: string)
    ensures WithoutReturns(s + t) == WithoutReturns(s) + WithoutReturns(t)
  {
    if s == "" {
      assert s + t == t;
    } else {
      assert (s + t)[1..] == s[1..] + t;
      WithoutReturnsAppend(s[1..], t);
    }
  }

  /**
   Main result. A new parser accepts exactly the files that consist of such lines, carriage returns apart, and
   the list is what the lines give, of each name the first.
   */
  lemma AcceptedIff(text: string)
    ensures Loaded(FRESH, text).1 <==> exists forms :: AllValid(forms) && TextOfForms(forms) == WithoutReturns(text) + "\n"
    ensures forall forms :: AllValid(forms) && TextOfForms(forms) == WithoutReturns(text) + "\n" ==>
              Loaded(FRESH, text).0.props == Collected([], GivenBy(forms))
  {
    hide ParseAll, Collected, GivenBy;
    ReturnsIgnored(FRESH, text + "\n");
    ReturnsIgnored(FRESH, text);
    WithoutReturnsAppend(text, "\n");
    assert WithoutReturns("\n") == "\n";
    forall forms | AllValid(forms) && TextOfForms(forms) == WithoutReturns(text) + "\n"
      ensures Loaded(FRESH, text) == (FRESH.(line := 1 + |forms|, props := Collected([], GivenBy(forms))), true)
    {
      ReadForms(FRESH, forms);
    }
    if Loaded(FRESH, text).1 {
      var forms := FormsOf(FRESH, WithoutReturns(text));
    }
  }

  /** A tab behind a value is refused, although blanks at the end are meant to be removed. */
  lemma TabRefused()
    ensures !Loaded(FRESH, "a=b\t").1
  {
    var p := FRESH.(state := CopyName, name := "a");
    ParseTwo(FRESH, 'a', '=');
    ParseTwo(p.(state := WaitForValue), 'b', '\t');
    assert "a=b\t" + "\n" == ['a', '='] + ['b', '\t'] + "\n";
    ParseAppend(FRESH, ['a', '='], ['b', '\t']);
    ParseAppend(FRESH, ['a', '='] + ['b', '\t'], "\n");
  }

  // ---------------------------------------------------------------- the driver

  /** The buffer begins with the string and its terminator. */
  predicate Holds(buffer: seq<char>, s: string) {
    |s| < |buffer| && buffer[..|s|] == s && buffer[|s|] == '\0' && forall i :: 0 <= i < |s| ==> s[i] != '\0'
  }

  /** The string in a buffer: everything before the first terminator. */
  function CString(buffer: seq<char>): string {
    if buffer == [] || buffer[0] == '\0' then "" else [buffer[0]] + CString(buffer[1..])
  }

  lemma {:induction false} CStringIs(buffer: seq<char>, s: string)
    requires Holds(buffer, s)
    ensures CString(buffer) == s
  {
    if s != "" {
      assert buffer[0] == buffer[..|s|][0] == s[0];
      assert buffer[1..][..|s| - 1] == buffer[..|s|][1..] == s[1..];
      CStringIs(buffer[1..], s[1..]);
    }
  }

  class PropertiesFile {
    var state: State
    var index: nat
    var line: nat
    const propertyName: array<char>
    const propertyValue: array<char>
    var props: seq<Property>
    var getIndex: nat
    ghost var parser: Parser

    ghost predicate Buffers()
      reads this
    {
      propertyName.Length == MAX_PROPERTY_NAME_LENGTH && propertyValue.Length == MAX_PROPERTY_VALUE_LENGTH
      && propertyName != propertyValue
    }

    /** The fields and the buffers are those of the parser. */
    ghost predicate Valid()
      reads this, propertyName, propertyValue
    {
      && Buffers() && Good(parser) && state == parser.state && line == parser.line && props == parser.props
      && match state
         case CopyName => index == |parser.name| && Holds(propertyName[..], parser.name)
         case WaitForValue => index == 0 && Holds(propertyName[..], parser.name)
         case CopyValue => index == |parser.value| && Holds(propertyName[..], parser.name) && Holds(propertyValue[..], parser.value)
         case _ => index == 0
    }

    constructor ()
      ensures Valid() && parser == FRESH && fresh(propertyName) && fresh(propertyValue)
    {
      state, index, line, props, getIndex := WaitForName, 0, 1, [], 0;
      propertyName := new char[MAX_PROPERTY_NAME_LENGTH](_ => '\0');
      propertyValue := new char[MAX_PROPERTY_VALUE_LENGTH](_ => '\0');
      parser := FRESH;
    }

    method Lookup(name: string) returns (k: nat)
      ensures k <= |props| && (forall i :: 0 <= i < k ==> props[i].name != name)
      ensures k < |props| ==> props[k].name == name
    {
      k := 0;
      while k < |props|
        invariant k <= |props| && forall i :: 0 <= i < k ==> props[i].name != name
      {
        if props[k].name == name {
          return;
        }
        k := k + 1;
      }
    }

    method AddProperty(name: string, value: string)
      modifies `props
      ensures props == Add(old(props), name, value)
    {
      var k := Lookup(name);
      if k < |props| {
        return;
      }
      props := props + [Property(name, value)];
    }

    method Put(buffer: array<char>, ch: char, ghost s: string)
      requires buffer.Length == MAX_PROPERTY_NAME_LENGTH || buffer.Length == MAX_PROPERTY_VALUE_LENGTH
      requires index == |s| && |s| + 1 < buffer.Length && buffer[..|s|] == s && ch != '\0'
      requires forall i :: 0 <= i < |s| ==> s[i] != '\0'
      modifies `index, buffer
      ensures index == |s| + 1 && Holds(buffer[..], s + [ch])
    {
      buffer[index] := ch;
      index := index + 1;
      buffer[index] := '\0';
    }

    /** Removes the blanks at the end of the value, except for its first character. */
    method Trim(ghost value: string)
      requires Buffers() && 0 < index == |value| && Holds(propertyValue[..], value)
      modifies propertyValue
      ensures Holds(propertyValue[..], Trimmed(value))
    {
      var i := index - 1;
      while i > 0
        invariant 0 <= i < |value| && Holds(propertyValue[..], value[..i + 1]) && Trimmed(value) == Trimmed(value[..i + 1])
      {
        if !IsBlank(propertyValue[i]) {
          break;
        }
        assert value[..i + 1][..i] == value[..i];
        propertyValue[i] := '\0';
        i := i - 1;
      }
    }

    method EndOfLine(value: string)
      requires Buffers() && Holds(propertyName[..], parser.name) && props == parser.props && line == parser.line
      modifies `props, `state, `index, `line
      ensures props == Add(old(props), parser.name, value) && state == WaitForName && index == 0 && line == old(line) + 1
    {
      CStringIs(propertyName[..], parser.name);
      AddProperty(CString(propertyName[..]), value);
      state := WaitForName;
      index := 0;
      line := line + 1;
    }

    /** The character was taken, with the effect on the parser that Step tells; or it was refused. */
    twostate predicate Took(ch: char, ok: bool)
      reads this
    {
      if ok then Step(old(parser), ch) == Next(parser) else Step(old(parser), ch) == Refused && parser == old(parser)
    }

    method ParseWaitForName(ch: char) returns (ok: bool)
      requires Valid() && state == WaitForName && ch != '\r'
      modifies this, propertyName, propertyValue
      ensures Valid() && Took(ch, ok)
    {
      if IsBlank(ch) {
      } else if ch == '\n' {
        line := line + 1;
      } else if ch == '#' {
        state := IgnoreComment;
      } else if IsValidNameChar(ch) {
        if index >= MAX_PROPERTY_NAME_LENGTH - 2 {
          return false;
        }
        Put(propertyName, ch, "");
        state := CopyName;
      } else {
        return false;
      }
      Advance(ch);
      ok := true;
    }

    /** The parser goes on as Step tells. */
    ghost method Advance(ch: char)
      requires Good(parser) && Step(parser, ch).Next?
      modifies `parser
      ensures Step(old(parser), ch) == Next(parser) && Good(parser)
    {
      StepKeepsGood(parser, ch);
      parser := Step(parser, ch).parser;
    }

    method ParseCopyName(ch: char) returns (ok: bool)
      requires Valid() && state == CopyName && ch != '\r'
      modifies this, propertyName, propertyValue
      ensures Valid() && Took(ch, ok)
    {
      if IsValidNameChar(ch) {
        if index >= MAX_PROPERTY_NAME_LENGTH - 2 {
          return false;
        }
        Put(propertyName, ch, parser.name);
      } else if ch == '=' || IsBlank(ch) {
        state := WaitForValue;
        index := 0;
      } else if ch == '\n' {
        EndOfLine("");
      } else {
        return false;
      }
      Advance(ch);
      ok := true;
    }

    method ParseWaitForValue(ch: char) returns (ok: bool)
      requires Valid() && state == WaitForValue && ch != '\r'
      modifies this, propertyName, propertyValue
      ensures Valid() && Took(ch, ok)
    {
      if IsBlank(ch) || ch == '=' {
      } else if ch == '\n' {
        EndOfLine("");
      } else {
        if !(' ' < ch <= '~') {
          return false;
        }
        assert index == 0;
        Put(propertyValue, ch, "");
        state := CopyValue;
      }
      Advance(ch);
      ok := true;
    }

    method ParseCopyValue(ch: char) returns (ok: bool)
      requires Valid() && state == CopyValue && ch != '\r'
      modifies this, propertyName, propertyValue
      ensures Valid() && Took(ch, ok)
    {
      if ch == '\n' {
        Trim(parser.value);
        CStringIs(propertyValue[..], Trimmed(parser.value));
        EndOfLine(CString(propertyValue[..]));
      } else if !IsPrintable(ch) {
        return false;
      } else {
        if index >= MAX_PROPERTY_VALUE_LENGTH - 2 {
          return false;
        }
        Put(propertyValue, ch, parser.value);
      }
      Advance(ch);
      ok := true;
    }

    method ParseIgnoreComment(ch: char)
      requires Valid() && state == IgnoreComment && ch != '\r'
      modifies this
      ensures Valid() && Took(ch, true)
    {
      if ch == '\n' {
        state := WaitForName;
        index := 0;
        line := line + 1;
      }
      Advance(ch);
    }

    method Parse(ch: char) returns (ok: bool)
      requires Valid()
      modifies this, propertyName, propertyValue
      ensures Valid() && Took(ch, ok)
    {
      if ch == '\r' {
        return true;
      }
      match state {
        case WaitForName => ok := ParseWaitForName(ch);
        case CopyName => ok := ParseCopyName(ch);
        case WaitForValue => ok := ParseWaitForValue(ch);
        case CopyValue => ok := ParseCopyValue(ch);
        case IgnoreComment => ParseIgnoreComment(ch); ok := true;
      }
    }

    method RemoveAll()
      modifies `props
      ensures props == []
    {
      while |props| > 0 {
        props := props[..|props| - 1];
      }
    }

    /** Loads a file, None if it cannot be opened. */
    method Load(file: Option<seq<Read>>) returns (ok: bool)
      requires Valid() && (file.Some? ==> Readable(file.value))
      modifies this, propertyName, propertyValue
      ensures Valid() && (parser, ok) == LoadedFrom(old(parser), file)
      ensures file == None ==> !ok
      ensures file.Some? && (exists i :: 0 <= i < |file.value| && file.value[i] == Failure) ==> !ok
      ensures file.Some? && (forall i :: 0 <= i < |file.value| ==> file.value[i] != Failure) ==>
                (parser, ok) == Loaded(old(parser), TextOf(file.value))
    {
      if file.Some? {
        CompleteIs(file.value);
      }
      RemoveAll();
      line := 1;
      parser := Cleared(parser);
      if file == None {
        return false;
      }
      ok := ReadAll(file.value);
      if ok {
        ParseOne(parser, '\n');
        ParseAppend(Cleared(old(parser)), TextOf(file.value), "\n");
        ok := Parse('\n');
      } else {
        ParseAppend(Cleared(old(parser)), TextOf(file.value), "\n");
      }
    }

    /** Reads to the end of the file, a read that fails, or a character that is refused. */
    method ReadAll(pieces: seq<Read>) returns (ok: bool)
      requires Valid() && Readable(pieces)
      modifies this, propertyName, propertyValue
      ensures Valid() && parser == ParseAll(old(parser), TextOf(pieces)).0
      ensures ok == (ParseAll(old(parser), TextOf(pieces)).1 && Complete(pieces))
    {
      ghost var p := parser;
      var k := 0;
      while k < |pieces|
        invariant k <= |pieces| && Valid()
        invariant Rest(p, pieces) == Rest(parser, pieces[k..])
      {
        var result := pieces[k];
        ghost var q := parser;
        NextRead(q, pieces, k);
        if result == Failure {
          return false;
        }
        ok := ParsePiece(result.text);
        if !ok {
          return;
        }
        k := k + 1;
      }
      ok := true;
    }

    method ParsePiece(buffer: string) returns (ok: bool)
      requires Valid()
      modifies this, propertyName, propertyValue
      ensures Valid() && (parser, ok) == ParseAll(old(parser), buffer)
    {
      ghost var p := parser;
      var i := 0;
      while i < |buffer|
        invariant i <= |buffer| && Valid() && ParseAll(p, buffer) == ParseAll(parser, buffer[i..])
      {
        ok := Parse(buffer[i]);
        if !ok {
          return;
        }
        assert buffer[i..][1..] == buffer[i + 1..];
        i := i + 1;
      }
      ok := true;
    }

    /** The properties that the iteration has not passed yet, the present one first. */
    function Remaining(): seq<Property>
      reads this
    {
      if getIndex <= |props| then props[getIndex..] else []
    }

    method GetFirst() returns (more: bool)
      modifies `getIndex
      ensures Remaining() == props && getIndex == 0 && more == (Remaining() != [])
    {
      getIndex := 0;
      more := |props| > getIndex;
    }

    /** Passes the present property. */
    method GetNext() returns (more: bool)
      modifies `getIndex
      ensures Remaining() == (if old(Remaining()) == [] then [] else old(Remaining())[1..]) && more == (Remaining() != [])
      ensures getIndex == old(getIndex) + 1
    {
      getIndex := getIndex + 1;
      more := |props| > getIndex;
    }

    /** Writes the file. A file that cannot be created, written or closed is refused; it holds a part of the text then. */
    method Save() returns (ok: bool, text: string)
      modifies `getIndex
      ensures text <= Saved(props) && (ok ==> text == Saved(props))
    {
      text := "";
      assert props[..0] == [] && Saved([]) == "";
      hide Saved;
      var created: bool := *;
      if !created {
        return false, text;
      }
      var more := GetFirst();
      while more
        invariant getIndex <= |props| && more == (getIndex < |props|) && text == Saved(props[..getIndex])
        decreases |props| - getIndex
      {
        NextLine(props, getIndex);
        var line := props[getIndex].name + "=" + props[getIndex].value + "\n";
        var result :| 0 <= result <= |line|;
        PartOfLine(text, line, result, Saved(props));
        text := text + line[..result];
        if result != |line| {
          return false, text;
        }
        more := GetNext();
      }
      assert props[..getIndex] == props;
      ok := *;
    }
  }

  lemma NextLine(props: seq<Property>, k: nat)
    requires k < |props|
    ensures Saved(props[..k + 1]) == Saved(props[..k]) + Line(props[k]) && Saved(props[..k + 1]) <= Saved(props)
  {
    assert props[..k + 1][..k] == props[..k];
    SavedBegins(props, k + 1);
  }

  lemma PartOfLine(text: string, line: string, n: nat, all: string)
    requires text + line <= all && n <= |line|
    ensures text + line[..n] <= all && (n == |line| ==> line[..n] == line)
  {
  }

  /** The text of a list begins with that of its first properties. */
  lemma {:induction false} SavedBegins(props: seq<Property>, k: nat)
    requires k <= |props|
    ensures Saved(props[..k]) <= Saved(props)
    decreases |props|
  {
    if k < |props| {
      var front := props[..|props| - 1];
      assert props[..k] == front[..k];
      SavedBegins(front, k);
    } else {
      assert props[..k] == props;
    }
  }
}
