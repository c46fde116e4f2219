/** The `{{path|filter}}` template language: parsing a source into parts, and
    the printer of expressions. Parsing and printing undo each other. */
module Template {
  import opened Text

  const MAX_SOURCE_BYTES: nat := 1048576
  const MAX_PARTS: nat := 4096
  const MAX_DEPTH: nat := 32
  const MAX_INDEX: nat := 0x7FFF_FFFF_FFFF_FFFF

  datatype Filter = FString | FRaw | FJson | FUrl | FHeader | FBase64

  datatype PathPart = Key(name: string) | Index(index: nat)

  datatype Expression = Expression(path: seq<PathPart>, filter: Filter)

  datatype Part = Literal(text: string) | Expr(expr: Expression)

  /** The diagnostic families E400 to E404. */
  datatype Error = Syntax | Missing(name: string) | TypeError | UnsafeHeader | Limit

  // ---------- Expressions ----------

  predicate IdentStart(c: char) {
    'a' <= c <= 'z' || 'A' <= c <= 'Z' || c == '_'
  }

  predicate IdentChar(c: char) {
    IdentStart(c) || IsDigit(c) || c == '-'
  }

  predicate Identifier(s: string) {
    s != [] && IdentStart(s[0]) && forall i :: 0 <= i < |s| ==> IdentChar(s[i])
  }

  /** The number of leading identifier characters. */
  function IdentSpan(s: string): (n: nat)
    ensures n <= |s|
  {
    if s == [] || !IdentChar(s[0]) then 0 else 1 + IdentSpan(s[1..])
  }

  function FilterName(f: Filter): string {
    match f
    case FString => "string"
    case FRaw => "raw"
    case FJson => "json"
    case FUrl => "url"
    case FHeader => "header"
    case FBase64 => "base64"
  }

  function FilterOf(name: string): Option<Filter> {
    if name == "string" then Some(FString)
    else if name == "raw" then Some(FRaw)
    else if name == "json" then Some(FJson)
    else if name == "url" then Some(FUrl)
    else if name == "header" then Some(FHeader)
    else if name == "base64" then Some(FBase64)
    else None
  }

  /** An identifier at the front of `s`, and what follows. */
  function ReadKey(s: string): (r: Result<(PathPart, string), Error>)
    ensures r.Ok? ==> |r.value.1| < |s|
  {
    var n := IdentSpan(s);
    if n == 0 || !IdentStart(s[0]) then Err(Syntax) else Ok((Key(s[..n]), s[n..]))
  }

  /** Digits and a closing bracket at the front of `s`, and what follows. */
  function ReadIndex(s: string): (r: Result<(PathPart, string), Error>)
    ensures r.Ok? ==> |r.value.1| < |s|
  {
    var n := DigitSpan(s);
    if n == 0 || n >= |s| || s[n] != ']' then Err(Syntax)
    else if DecimalValue(s[..n]) > MAX_INDEX then Err(Syntax)
    else Ok((Index(DecimalValue(s[..n])), s[n + 1..]))
  }

  /** One `.key` or `[index]` segment at the front of `s`, and what follows. */
  function ReadSegment(s: string): (r: Result<(PathPart, string), Error>)
    requires s != []
    ensures r.Ok? ==> |r.value.1| < |s|
  {
    if s[0] == '.' then ReadKey(s[1..])
    else if s[0] == '[' then ReadIndex(s[1..])
    else Err(Syntax)
  }

  /** The rest of a path, after the segments in `path`. */
  function ReadSegments(s: string, path: seq<PathPart>): Result<seq<PathPart>, Error>
    decreases |s|
  {
    if s == [] then Ok(path)
    else match ReadSegment(s)
         case Err(e) => Err(e)
         case Ok((part, rest)) =>
           if |path| + 1 > MAX_DEPTH then Err(Limit) else ReadSegments(rest, path + [part])
  }

  function ParsePath(s: string): Result<seq<PathPart>, Error> {
    match ReadKey(s)
    case Err(e) => Err(e)
    case Ok((first, rest)) => ReadSegments(rest, [first])
  }

  function ParseFilter(pieces: seq<string>): Result<Filter, Error>
    requires |pieces| >= 1
  {
    if |pieces| > 2 || (|pieces| == 2 && Trim(pieces[1]) == "") then Err(Syntax)
    else if |pieces| == 1 then Ok(FString)
    else match FilterOf(Trim(pieces[1]))
         case Some(f) => Ok(f)
         case None => Err(Syntax)
  }

  /** The inner text of one `{{...}}` region. */
  function ParseExpression(source: string): Result<Expression, Error> {
    var input := Trim(source);
    if input == "" then Err(Syntax)
    else
      var pieces := Split(input, '|');
      match ParseFilter(pieces)
      case Err(e) => Err(e)
      case Ok(filter) =>
        match ParsePath(Trim(pieces[0]))
        case Err(e) => Err(e)
        case Ok(path) => Ok(Expression(path, filter))
  }

  // ---------- Sources ----------

  /** The scanner for regions does not look inside them: it works with any
      parser for their inner text. */
  type ExpressionParser = string -> Result<Expression, Error>

  /** The parts of `s` when `count` parts came before it. */
  function ParseFrom(p: ExpressionParser, s: string, count: nat): Result<seq<Part>, Error>
    decreases |s|
  {
    if s == [] then Ok([])
    else
      var start := FindPair(s, '{', 0);
      var end := FindPair(s, '}', 0);
      if end.Some? && (start.None? || end.value < start.value) then Err(Syntax)
      else if start.None? then
        if count >= MAX_PARTS then Err(Limit) else Ok([Literal(s)])
      else if start.value > 0 && count >= MAX_PARTS then Err(Limit)
      else ParseRegion(p, s, start.value, count + |Before(s[..start.value])|)
  }

  /** A source whose first region opens at `start`; `count` includes the
      literal before it. */
  function ParseRegion(p: ExpressionParser, s: string, start: nat, count: nat): Result<seq<Part>, Error>
    requires start + 2 <= |s|
    decreases |s|, 0
  {
    match FindPair(s, '}', start + 2)
    case None => Err(Syntax)
    case Some(close) =>
      match p(s[start + 2..close])
      case Err(e) => Err(e)
      case Ok(expr) =>
        if count >= MAX_PARTS then Err(Limit)
        else Prepend(Before(s[..start]) + [Expr(expr)], ParseFrom(p, s[close + 2..], count + 1))
  }

  function Before(text: string): seq<Part> {
    if text == [] then [] else [Literal(text)]
  }

  function Parse(source: string): Result<seq<Part>, Error> {
    if ByteLen(source) > MAX_SOURCE_BYTES then Err(Limit)
    else if source == "" then Ok([Literal("")])
    else ParseFrom(ParseExpression, source, 0)
  }

  /** `r` is what one turn of the loop contributes to the parse of `s`. */
  ghost predicate StepOf(p: ExpressionParser, s: string, count: nat, r: Result<(seq<Part>, nat), Error>) {
    match r
    case Err(e) => ParseFrom(p, s, count) == Err(e)
    case Ok((pushed, width)) =>
      && width <= |s|
      && ParseFrom(p, s, count) == Prepend(pushed, ParseFrom(p, s[width..], count + |pushed|))
  }

  /** The parts so far followed by the parse of the rest are the whole parse. */
  ghost predicate Continues(p: ExpressionParser, parts: seq<Part>, rest: string, goal: Result<seq<Part>, Error>) {
    Prepend(parts, ParseFrom(p, rest, |parts|)) == goal
  }

  lemma {:induction false} Advance(p: ExpressionParser, parts: seq<Part>, rest: string,
                                   r: Result<(seq<Part>, nat), Error>, goal: Result<seq<Part>, Error>)
    requires Continues(p, parts, rest, goal) && StepOf(p, rest, |parts|, r)
    ensures r.Err? ==> goal == Err(r.error)
    ensures r.Ok? ==> Continues(p, parts + r.value.0, rest[r.value.1..], goal)
  {
    if r.Ok? {
      PrependParts(parts, r.value.0, ParseFrom(p, rest[r.value.1..], |parts| + |r.value.0|));
    }
  }

  lemma {:induction false} Begin(p: ExpressionParser, source: string)
    ensures Continues(p, [], source, ParseFrom(p, source, 0))
  {
    PrependEmpty(ParseFrom(p, source, 0));
  }

  lemma {:induction false} Finish(p: ExpressionParser, parts: seq<Part>, goal: Result<seq<Part>, Error>)
    requires Continues(p, parts, [], goal)
    ensures goal == Ok(parts)
  {
    assert parts + [] == parts;
  }

  /** One turn of the parser's loop: the parts it pushes and how far the
      cursor moves. */
  method NextParts(p: ExpressionParser, s: string, count: nat) returns (r: Result<(seq<Part>, nat), Error>)
    requires s != []
    ensures r.Ok? ==> 0 < r.value.1 <= |s|
    ensures StepOf(p, s, count, r)
  {
    var relStart := FindPair(s, '{', 0);
    var relEnd := FindPair(s, '}', 0);
    if relEnd.Some? && (relStart.None? || relEnd.value < relStart.value) {
      return Err(Syntax);
    }
    if relStart.None? {
      if count >= MAX_PARTS {
        return Err(Limit);
      }
      assert [Literal(s)] + [] == [Literal(s)];
      return Ok(([Literal(s)], |s|));
    }
    var start := relStart.value;
    var pushed: seq<Part> := [];
    if start > 0 {
      if count >= MAX_PARTS {
        return Err(Limit);
      }
      pushed := [Literal(s[..start])];
    }
    var relClose := FindPair(s, '}', start + 2);
    if relClose.None? {
      return Err(Syntax);
    }
    var expression := p(s[start + 2..relClose.value]);
    if expression.Err? {
      return Err(expression.error);
    }
    if count + |pushed| >= MAX_PARTS {
      return Err(Limit);
    }
    r := Ok((pushed + [Expr(expression.value)], relClose.value + 2));
  }

  method ParseLoop(p: ExpressionParser, source: string) returns (r: Result<seq<Part>, Error>)
    ensures r == ParseFrom(p, source, 0)
  {
    ghost var goal := ParseFrom(p, source, 0);
    var parts: seq<Part> := [];
    var rest := source;
    Begin(p, source);
    while rest != []
      invariant Continues(p, parts, rest, goal)
      decreases |rest|
    {
      var step := NextParts(p, rest, |parts|);
      Advance(p, parts, rest, step, goal);
      if step.Err? {
        return Err(step.error);
      }
      parts := parts + step.value.0;
      rest := rest[step.value.1..];
    }
    Finish(p, parts, goal);
    r := Ok(parts);
  }

  /** `Parse` as the program runs it: a cursor moving over the source and one
      growing list of parts. */
  method ParseTemplate(source: string) returns (r: Result<seq<Part>, Error>)
    ensures r == Parse(source)
  {
    if ByteLen(source) > MAX_SOURCE_BYTES {
      r := Err(Limit);
    } else if source == "" {
      r := Ok([Literal("")]);
    } else {
      r := ParseLoop(ParseExpression, source);
    }
  }

  function Prepend(parts: seq<Part>, rest: Result<seq<Part>, Error>): Result<seq<Part>, Error> {
    match rest
    case Err(e) => Err(e)
    case Ok(more) => Ok(parts + more)
  }

  lemma PrependEmpty(rest: Result<seq<Part>, Error>)
    ensures Prepend([], rest) == rest
  {
    if rest.Ok? {
      assert [] + rest.value == rest.value;
    }
  }

  lemma PrependParts(a: seq<Part>, b: seq<Part>, rest: Result<seq<Part>, Error>)
    ensures Prepend(a, Prepend(b, rest)) == Prepend(a + b, rest)
  {
    if rest.Ok? {
      Assoc(a, b, rest.value);
    }
  }

  // ---------- The printer ----------

  function PrintSegment(part: PathPart): string {
    match part
    case Key(name) => "." + name
    case Index(index) => "[" + Decimal(index) + "]"
  }

  function PrintSegments(path: seq<PathPart>): string {
    if path == [] then [] else PrintSegment(path[0]) + PrintSegments(path[1..])
  }

  /** The path of an expression: the first key stands without a dot. */
  function PrintPath(path: seq<PathPart>): string {
    if path == [] then []
    else (if path[0].Key? then path[0].name else PrintSegment(path[0])) + PrintSegments(path[1..])
  }

  /** What stands between the braces; the default filter is not written. */
  function PrintInner(expr: Expression): string {
    PrintPath(expr.path) + (if expr.filter == FString then "" else "|" + FilterName(expr.filter))
  }

  function PrintExpression(expr: Expression): string {
    "{{" + PrintInner(expr) + "}}"
  }

  function PrintPart(part: Part): string {
    match part
    case Literal(text) => text
    case Expr(expr) => PrintExpression(expr)
  }

  function Print(parts: seq<Part>): string {
    if parts == [] then [] else PrintPart(parts[0]) + Print(parts[1..])
  }

  /** `format_expression`: the path is written part by part, then the filter. */
  method FormatExpression(expr: Expression) returns (value: string)
    ensures value == PrintExpression(expr)
  {
    value := FormatPath("{{", expr.path);
    if expr.filter != FString {
      Assoc("{{" + PrintPath(expr.path), "|", FilterName(expr.filter));
      value := value + "|";
      value := value + FilterName(expr.filter);
    }
    Assoc("{{", PrintPath(expr.path), if expr.filter == FString then "" else "|" + FilterName(expr.filter));
    value := value + "}}";
  }

  method FormatPath(prefix: string, path: seq<PathPart>) returns (value: string)
    ensures value == prefix + PrintPath(path)
  {
    value := prefix;
    if path == [] {
      return;
    }
    value := if path[0].Key? then value + path[0].name else value + PrintSegment(path[0]);
    ghost var goal := prefix + PrintPath(path);
    Assoc(prefix, if path[0].Key? then path[0].name else PrintSegment(path[0]), PrintSegments(path[1..]));
    for index := 1 to |path|
      invariant value + PrintSegments(path[index..]) == goal
    {
      NextSegment(value, path, index);
      match path[index] {
        case Key(name) =>
          Assoc(value, ".", name);
          value := value + ".";
          value := value + name;
        case Index(n) => value := value + ("[" + Decimal(n) + "]");
      }
    }
    assert value + [] == value;
  }

  lemma {:induction false} NextSegment(value: string, path: seq<PathPart>, index: nat)
    requires index < |path|
    ensures value + PrintSegments(path[index..]) == value + PrintSegment(path[index]) + PrintSegments(path[index + 1..])
  {
    assert path[index..][1..] == path[index + 1..];
    Assoc(value, PrintSegment(path[index]), PrintSegments(path[index + 1..]));
  }

  // ---------- Printing, then parsing ----------

  predicate WellFormedPart(part: PathPart) {
    match part
    case Key(name) => Identifier(name)
    case Index(index) => index <= MAX_INDEX
  }

  /** The expressions that the language can write: a key first, valid names,
      machine-sized indices and at most 32 segments. */
  predicate WellFormed(expr: Expression) {
    && 1 <= |expr.path| <= MAX_DEPTH
    && expr.path[0].Key?
    && forall i :: 0 <= i < |expr.path| ==> WellFormedPart(expr.path[i])
  }

  /** `s` does not continue an identifier. */
  predicate EndsIdentifier(s: string) {
    s == [] || !IdentChar(s[0])
  }

  lemma {:induction false} IdentSpanIs(name: string, rest: string)
    requires (forall i :: 0 <= i < |name| ==> IdentChar(name[i])) && EndsIdentifier(rest)
    ensures IdentSpan(name + rest) == |name|
  {
    if name == [] {
      assert name + rest == rest;
    } else {
      assert (name + rest)[1..] == name[1..] + rest;
      IdentSpanIs(name[1..], rest);
    }
  }

  lemma {:induction false} ReadPrintedKey(name: string, rest: string)
    requires Identifier(name) && EndsIdentifier(rest)
    ensures ReadKey(name + rest) == Ok((Key(name), rest))
  {
    var s := name + rest;
    IdentSpanIs(name, rest);
    assert s[..|name|] == name && s[|name|..] == rest;
  }

  lemma {:induction false} ReadPrintedIndex(index: nat, rest: string)
    requires index <= MAX_INDEX
    ensures ReadIndex(Decimal(index) + ("]" + rest)) == Ok((Index(index), rest))
  {
    var digits := Decimal(index);
    var s := digits + ("]" + rest);
    assert s[..|digits|] == digits && s[|digits|] == ']' && s[|digits| + 1..] == rest;
    DecimalDigits(index);
    DigitSpanIs(digits, "]" + rest);
    DecimalInverse(index);
  }

  lemma {:induction false} ReadPrintedSegment(part: PathPart, rest: string)
    requires WellFormedPart(part) && EndsIdentifier(rest)
    ensures PrintSegment(part) + rest != []
    ensures ReadSegment(PrintSegment(part) + rest) == Ok((part, rest))
  {
    var s := PrintSegment(part) + rest;
    match part {
      case Key(name) =>
        Assoc(".", name, rest);
        DropFirst('.', name + rest);
        ReadPrintedKey(name, rest);
      case Index(index) =>
        Assoc("[", Decimal(index), "]");
        Assoc("[", Decimal(index) + "]", rest);
        Assoc(Decimal(index), "]", rest);
        DropFirst('[', Decimal(index) + ("]" + rest));
        ReadPrintedIndex(index, rest);
    }
  }

  lemma {:induction false} ReadsSegment(s: string, part: PathPart, rest: string, before: seq<PathPart>)
    requires s != [] && ReadSegment(s) == Ok((part, rest)) && |before| < MAX_DEPTH
    ensures ReadSegments(s, before) == ReadSegments(rest, before + [part])
  {}

  lemma {:induction false} SegmentsEndIdentifier(path: seq<PathPart>)
    ensures EndsIdentifier(PrintSegments(path))
  {}

  lemma {:induction false} ReadPrintedSegments(path: seq<PathPart>, before: seq<PathPart>)
    requires |before| + |path| <= MAX_DEPTH
    requires forall i :: 0 <= i < |path| ==> WellFormedPart(path[i])
    ensures ReadSegments(PrintSegments(path), before) == Ok(before + path)
  {
    if path == [] {
      assert before + path == before;
    } else {
      SegmentsEndIdentifier(path[1..]);
      ReadPrintedSegment(path[0], PrintSegments(path[1..]));
      ReadsSegment(PrintSegments(path), path[0], PrintSegments(path[1..]), before);
      ReadPrintedSegments(path[1..], before + [path[0]]);
      ShiftFirst(before, path);
    }
  }

  lemma {:induction false} ParsePrintedPath(path: seq<PathPart>)
    requires WellFormed(Expression(path, FString))
    ensures ParsePath(PrintPath(path)) == Ok(path)
  {
    var name, rest := path[0].name, PrintSegments(path[1..]);
    var s := PrintPath(path);
    assert s == name + rest;
    SegmentsEndIdentifier(path[1..]);
    ReadPrintedKey(name, rest);
    ReadPrintedSegments(path[1..], [path[0]]);
    assert [path[0]] + path[1..] == path;
  }

  /** The characters that a printed path is made of. */
  predicate PathChar(c: char) {
    IdentChar(c) || c == '.' || c == '[' || c == ']'
  }

  predicate PathChars(s: string) {
    forall i :: 0 <= i < |s| ==> PathChar(s[i])
  }

  lemma {:induction false} SegmentChars(part: PathPart)
    requires WellFormedPart(part)
    ensures PathChars(PrintSegment(part))
  {
    if part.Index? {
      DecimalDigits(part.index);
    }
  }

  lemma {:induction false} SegmentsChars(path: seq<PathPart>)
    requires forall i :: 0 <= i < |path| ==> WellFormedPart(path[i])
    ensures PathChars(PrintSegments(path))
  {
    if path != [] {
      SegmentChars(path[0]);
      SegmentsChars(path[1..]);
    }
  }

  lemma {:induction false} PrintedPathChars(expr: Expression)
    requires WellFormed(expr)
    ensures PrintPath(expr.path) != [] && PathChars(PrintPath(expr.path))
  {
    SegmentsChars(expr.path[1..]);
  }

  lemma {:induction false} PathCharsPlain(s: string)
    requires s != [] && PathChars(s)
    ensures Trim(s) == s && '|' !in s
  {
    assert PathChar(s[0]) && PathChar(s[|s| - 1]);
    TrimNothing(s);
  }

  lemma {:induction false} FilterNamePlain(f: Filter)
    ensures FilterName(f) != [] && PathChars(FilterName(f)) && FilterOf(FilterName(f)) == Some(f)
  {}

  lemma {:induction false} PrintedInnerTrimmed(path: string, name: string)
    requires path != [] && PathChars(path) && name != [] && PathChars(name)
    ensures Trim(path + "|" + name) == path + "|" + name
  {
    var s := path + "|" + name;
    assert PathChar(s[0]) && PathChar(s[|s| - 1]) by {
      assert s[0] == path[0] && s[|s| - 1] == name[|name| - 1];
    }
    TrimNothing(s);
  }

  /** Parsing a printed expression gives it back. */
  lemma {:induction false} ParsePrintedExpression(expr: Expression)
    requires WellFormed(expr)
    ensures ParseExpression(PrintInner(expr)) == Ok(expr)
  {
    var path := PrintPath(expr.path);
    PrintedPathChars(expr);
    PathCharsPlain(path);
    ParsePrintedPath(expr.path);
    if expr.filter == FString {
      assert path + "" == path;
      SplitWhole(path, '|');
      ParsesAs(PrintInner(expr), [path], expr);
    } else {
      var name := FilterName(expr.filter);
      FilterNamePlain(expr.filter);
      PathCharsPlain(name);
      PrintedInnerTrimmed(path, name);
      SplitWhole(name, '|');
      SplitHead(path, name, '|');
      Assoc(path, "|", name);
      ParsesAs(PrintInner(expr), [path, name], expr);
    }
  }

  lemma {:induction false} ParsesAs(inner: string, pieces: seq<string>, expr: Expression)
    requires inner != "" && Trim(inner) == inner && Split(inner, '|') == pieces && |pieces| >= 1
    requires ParseFilter(pieces) == Ok(expr.filter) && ParsePath(Trim(pieces[0])) == Ok(expr.path)
    ensures ParseExpression(inner) == Ok(expr)
  {}

  // ---------- What the parser accepts, it can print ----------

  lemma {:induction false} IdentSpanChars(s: string)
    ensures forall i :: 0 <= i < IdentSpan(s) ==> IdentChar(s[i])
  {
    if s != [] && IdentChar(s[0]) {
      IdentSpanChars(s[1..]);
    }
  }

  lemma {:induction false} ReadKeyShape(s: string)
    requires ReadKey(s).Ok?
    ensures var (part, rest) := ReadKey(s).value;
            part.Key? && Identifier(part.name) && |part.name| + |rest| == |s|
  {
    IdentSpanChars(s);
  }

  lemma {:induction false} ReadIndexShape(s: string)
    requires ReadIndex(s).Ok?
    ensures var (part, rest) := ReadIndex(s).value;
            part.Index? && part.index <= MAX_INDEX && |Decimal(part.index)| + 1 + |rest| <= |s|
  {
    DigitSpanDigits(s);
    DecimalShortest(s[..DigitSpan(s)]);
  }

  lemma {:induction false} ReadSegmentShape(s: string)
    requires s != [] && ReadSegment(s).Ok?
    ensures var (part, rest) := ReadSegment(s).value;
            WellFormedPart(part) && |PrintSegment(part)| + |rest| <= |s|
  {
    if s[0] == '.' {
      ReadKeyShape(s[1..]);
    } else {
      ReadIndexShape(s[1..]);
    }
  }

  /** The segments that were read, printed, are no longer than their source. */
  lemma {:induction false} ReadSegmentsShape(s: string, before: seq<PathPart>) returns (more: seq<PathPart>)
    requires |before| <= MAX_DEPTH && ReadSegments(s, before).Ok?
    ensures ReadSegments(s, before) == Ok(before + more) && |before| + |more| <= MAX_DEPTH
    ensures forall i :: 0 <= i < |more| ==> WellFormedPart(more[i])
    ensures |PrintSegments(more)| <= |s|
    decreases |s|
  {
    if s == [] {
      more := [];
      assert before + more == before;
    } else {
      ReadSegmentShape(s);
      var (part, rest) := ReadSegment(s).value;
      var others := ReadSegmentsShape(rest, before + [part]);
      more := [part] + others;
      DropFirst(part, others);
      Assoc(before, [part], others);
    }
  }

  lemma {:induction false} ParsePathShape(s: string)
    requires ParsePath(s).Ok?
    ensures WellFormed(Expression(ParsePath(s).value, FString))
    ensures |PrintPath(ParsePath(s).value)| <= |s|
  {
    ReadKeyShape(s);
    var (first, rest) := ReadKey(s).value;
    var more := ReadSegmentsShape(rest, [first]);
    DropFirst(first, more);
  }

  lemma {:induction false} FilterOfName(name: string)
    requires FilterOf(name).Some?
    ensures FilterName(FilterOf(name).value) == name
  {}

  lemma {:induction false} PiecesLength(s: string)
    ensures var pieces := Split(s, '|');
            && (|pieces| == 1 ==> |pieces[0]| == |s|)
            && (|pieces| == 2 ==> |pieces[0]| + 1 + |pieces[1]| == |s|)
  {
    var pieces := Split(s, '|');
    JoinSplit(s, '|');
    if |pieces| == 2 {
      assert Join(pieces[1..], '|') == pieces[1];
    }
  }

  /** An accepted region is well formed, and its canonical text is no longer. */
  lemma {:induction false} AcceptedExpression(source: string)
    requires ParseExpression(source).Ok?
    ensures WellFormed(ParseExpression(source).value)
    ensures |PrintInner(ParseExpression(source).value)| <= |Trim(source)|
  {
    var input := Trim(source);
    var pieces := Split(input, '|');
    PiecesLength(input);
    TrimLength(pieces[0]);
    ParsePathShape(Trim(pieces[0]));
    if |pieces| == 2 {
      TrimLength(pieces[1]);
      FilterOfName(Trim(pieces[1]));
    }
  }

  /** The six names are the only filters. */
  lemma {:induction false} FilterOfExact(name: string, f: Filter)
    ensures FilterOf(name) == Some(f) <==> name == FilterName(f)
  {}

  /** An accepted expression has at most one filter, and it is one of the six,
      written by its name; without one it is the default. */
  lemma {:induction false} FilterExact(source: string)
    requires ParseExpression(source).Ok?
    ensures var pieces := Split(Trim(source), '|');
            var filter := ParseExpression(source).value.filter;
            && |pieces| <= 2
            && (|pieces| == 1 ==> filter == FString)
            && (|pieces| == 2 ==> Trim(pieces[1]) == FilterName(filter))
            && ParsePath(Trim(pieces[0])) == Ok(ParseExpression(source).value.path)
  {
    var pieces := Split(Trim(source), '|');
    if |pieces| == 2 {
      FilterOfExact(Trim(pieces[1]), ParseExpression(source).value.filter);
    }
  }

  // ---------- Reparsing a whole source ----------

  predicate NoBraces(s: string) {
    forall i :: 0 <= i < |s| ==> s[i] != '{' && s[i] != '}'
  }

  /** What the scanner needs of the expression language: the canonical text of
      an accepted region is accepted again with the same meaning, contains no
      brace, and is no longer than the region. */
  ghost predicate Canonical(p: ExpressionParser, source: string) {
    p(source).Ok? ==>
      var inner := PrintInner(p(source).value);
      p(inner) == p(source) && NoBraces(inner) && ByteLen(inner) <= ByteLen(source)
  }

  lemma {:induction false} InnerPlain(expr: Expression)
    requires WellFormed(expr)
    ensures NoBraces(PrintInner(expr)) && ByteLen(PrintInner(expr)) == |PrintInner(expr)|
  {
    var inner := PrintInner(expr);
    PrintedPathChars(expr);
    FilterNamePlain(expr.filter);
    forall i | 0 <= i < |inner|
      ensures PathChar(inner[i]) || inner[i] == '|'
    {
      var path := PrintPath(expr.path);
      if i < |path| {
        assert inner[i] == path[i];
      } else if i > |path| {
        assert inner[i] == FilterName(expr.filter)[i - |path| - 1];
      }
    }
    AsciiByteLen(inner);
  }

  lemma {:induction false} ExpressionsCanonical(source: string)
    ensures Canonical(ParseExpression, source)
  {
    if ParseExpression(source).Ok? {
      AcceptedExpression(source);
      ParsePrintedExpression(ParseExpression(source).value);
      InnerPlain(ParseExpression(source).value);
      TrimShorter(source);
    }
  }

  /** A printed region after literal text. */
  function RegionText(lit: string, inner: string, tail: string): string {
    lit + ("{{" + (inner + ("}}" + tail)))
  }

  lemma {:induction false} RegionTextShape(lit: string, inner: string, tail: string)
    ensures var s := RegionText(lit, inner, tail);
            var close := |lit| + 2 + |inner|;
            && |s| == close + 2 + |tail|
            && s[..|lit|] == lit
            && s[|lit|] == '{' && s[|lit| + 1] == '{'
            && s[|lit| + 2..close] == inner
            && s[close] == '}' && s[close + 1] == '}'
            && s[close + 2..] == tail
  {}

  lemma {:induction false} RegionTextBytes(lit: string, inner: string, tail: string)
    ensures ByteLen(RegionText(lit, inner, tail)) == ByteLen(lit) + ByteLen(inner) + ByteLen(tail) + 4
  {
    Utf8Concat(lit, "{{" + (inner + ("}}" + tail)));
    Utf8Concat("{{", inner + ("}}" + tail));
    Utf8Concat(inner, "}}" + tail);
    Utf8Concat("}}", tail);
    AsciiByteLen("{{");
    AsciiByteLen("}}");
  }

  /** `s` reads as literal text, then one region, then more. */
  ghost predicate Scanned(s: string, lit: string, inner: string, tail: string) {
    && FindPair(s, '{', 0) == Some(|lit|)
    && (FindPair(s, '}', 0).Some? ==> FindPair(s, '}', 0).value >= |lit|)
    && FindPair(s, '}', |lit| + 2) == Some(|lit| + 2 + |inner|)
    && s == RegionText(lit, inner, tail)
  }

  /** The pieces of the first region of a source. */
  lemma {:induction false} ScanSource(s: string) returns (lit: string, inner: string, tail: string)
    requires FindPair(s, '{', 0).Some?
    requires FindPair(s, '}', 0).Some? ==> FindPair(s, '}', 0).value >= FindPair(s, '{', 0).value
    requires FindPair(s, '}', FindPair(s, '{', 0).value + 2).Some?
    ensures Scanned(s, lit, inner, tail)
  {
    var start := FindPair(s, '{', 0).value;
    var close := FindPair(s, '}', start + 2).value;
    lit, inner, tail := s[..start], s[start + 2..close], s[close + 2..];
    FindPairFirst(s, '{', 0);
    FindPairFirst(s, '}', start + 2);
    CutRegion(s, start, close);
    ScannedPieces(s, start, close, lit, inner, tail);
  }

  lemma {:induction false} ScannedPieces(s: string, start: nat, close: nat, lit: string, inner: string, tail: string)
    requires FindPair(s, '{', 0) == Some(start) && FindPair(s, '}', start + 2) == Some(close)
    requires FindPair(s, '}', 0).Some? ==> FindPair(s, '}', 0).value >= start
    requires |lit| == start && |inner| == close - start - 2 && s == RegionText(lit, inner, tail)
    ensures Scanned(s, lit, inner, tail)
  {}

  lemma {:induction false} CutRegion(s: string, start: nat, close: nat)
    requires start + 2 <= close && PairAt(s, '{', start) && PairAt(s, '}', close)
    ensures s == RegionText(s[..start], s[start + 2..close], s[close + 2..])
  {
    assert s[close..] == "}}" + s[close + 2..];
    assert s[start + 2..] == s[start + 2..close] + s[close..];
    assert s[start..] == "{{" + s[start + 2..];
    assert s == s[..start] + s[start..];
  }

  /** Replacing the inner text of a region by text without braces, and what
      follows by anything, leaves the region where it was. */
  lemma {:induction false} ScanReplaced(s: string, lit: string, inner: string, tail: string, inner': string,
                                        tail': string)
    requires Scanned(s, lit, inner, tail) && NoBraces(inner')
    ensures Scanned(RegionText(lit, inner', tail'), lit, inner', tail')
  {
    var text := RegionText(lit, inner', tail');
    RegionTextShape(lit, inner, tail);
    RegionTextShape(lit, inner', tail');
    FindPairFirst(s, '{', 0);
    FindPairFirst(s, '}', 0);
    assert forall j :: 0 <= j < |lit| ==> text[j] == lit[j] == s[j];
    forall j | 0 <= j < |lit|
      ensures !PairAt(text, '{', j) && !PairAt(text, '}', j)
    {
      assert !PairAt(s, '{', j) && !PairAt(s, '}', j);
    }
    ScanQuiet(lit, inner', tail');
  }

  lemma {:induction false} ScanQuiet(lit: string, inner: string, tail: string)
    requires NoBraces(inner)
    requires forall j :: 0 <= j < |lit| ==>
               !PairAt(RegionText(lit, inner, tail), '{', j) && !PairAt(RegionText(lit, inner, tail), '}', j)
    ensures Scanned(RegionText(lit, inner, tail), lit, inner, tail)
  {
    var text := RegionText(lit, inner, tail);
    var close := |lit| + 2 + |inner|;
    RegionTextShape(lit, inner, tail);
    FindPairIs(text, '{', 0, |lit|);
    FindPairFirst(text, '}', 0);
    assert forall j :: |lit| + 2 <= j < close ==> text[j] == text[|lit| + 2..close][j - |lit| - 2];
    FindPairIs(text, '}', |lit| + 2, close);
  }

  lemma {:induction false} PrintRegion(lit: string, expr: Expression, rest: seq<Part>)
    ensures Print(Before(lit) + [Expr(expr)] + rest) == RegionText(lit, PrintInner(expr), Print(rest))
  {
    var inner, tail := PrintInner(expr), Print(rest);
    var parts := [Expr(expr)] + rest;
    DropFirst(Expr(expr), rest);
    Assoc("{{", inner, "}}");
    Assoc("{{", inner + "}}", tail);
    Assoc(inner, "}}", tail);
    assert Print(parts) == "{{" + (inner + ("}}" + tail));
    if lit == [] {
      assert Before(lit) + [Expr(expr)] + rest == parts;
      assert lit + Print(parts) == Print(parts);
    } else {
      Assoc(Before(lit), [Expr(expr)], rest);
      DropFirst(Literal(lit), parts);
    }
  }

  ghost predicate ParsesTo(p: ExpressionParser, s: string, count: nat, parts: seq<Part>) {
    ParseFrom(p, s, count) == Ok(parts)
  }

  /** A scanned source parses to its literal, its expression and its rest, and
      in no other way. */
  lemma {:induction false} ParsesRegion(p: ExpressionParser, s: string, count: nat,
                                        lit: string, inner: string, tail: string, expr: Expression, rest: seq<Part>)
    requires Scanned(s, lit, inner, tail)
    requires p(inner) == Ok(expr) && count + |Before(lit)| < MAX_PARTS
    requires ParsesTo(p, tail, count + |Before(lit)| + 1, rest)
    ensures ParsesTo(p, s, count, Before(lit) + [Expr(expr)] + rest)
  {
    RegionTextShape(lit, inner, tail);
    assert ParseRegion(p, s, |lit|, count + |Before(lit)|) == Ok(Before(lit) + [Expr(expr)] + rest);
  }

  lemma {:induction false} AcceptedRegion(p: ExpressionParser, s: string, count: nat, parts: seq<Part>,
                                          lit: string, inner: string, tail: string)
    returns (expr: Expression, rest: seq<Part>)
    requires Scanned(s, lit, inner, tail) && ParsesTo(p, s, count, parts)
    ensures p(inner) == Ok(expr) && count + |Before(lit)| < MAX_PARTS
    ensures ParsesTo(p, tail, count + |Before(lit)| + 1, rest)
    ensures parts == Before(lit) + [Expr(expr)] + rest
  {
    RegionTextShape(lit, inner, tail);
    assert ParseRegion(p, s, |lit|, count + |Before(lit)|) == Ok(parts);
    expr := p(inner).value;
    rest := ParseFrom(p, tail, count + |Before(lit)| + 1).value;
  }

  lemma {:induction false} AcceptedLiteral(p: ExpressionParser, s: string, count: nat, parts: seq<Part>)
    requires s != [] && FindPair(s, '{', 0).None? && ParsesTo(p, s, count, parts)
    ensures Print(parts) == s
  {
    assert parts == [Literal(s)];
    assert s + [] == s;
  }

  lemma {:induction false} AcceptedScan(p: ExpressionParser, s: string, count: nat, parts: seq<Part>)
    returns (lit: string, inner: string, tail: string)
    requires s != [] && FindPair(s, '{', 0).Some? && ParsesTo(p, s, count, parts)
    ensures Scanned(s, lit, inner, tail)
  {
    var start := FindPair(s, '{', 0).value;
    assert ParseRegion(p, s, start, count + |Before(s[..start])|) == Ok(parts);
    lit, inner, tail := ScanSource(s);
  }

  /** One region of the reparse: if the parts after it read back, so do they
      with the region in front. */
  lemma {:induction false} ReparseRegion(p: ExpressionParser, s: string, count: nat, parts: seq<Part>,
                                         lit: string, inner: string, tail: string, expr: Expression, rest: seq<Part>)
    requires Scanned(s, lit, inner, tail) && p(inner) == Ok(expr) && Canonical(p, inner)
    requires count + |Before(lit)| < MAX_PARTS
    requires ParsesTo(p, Print(rest), count + |Before(lit)| + 1, rest)
    requires parts == Before(lit) + [Expr(expr)] + rest
    ensures ParsesTo(p, Print(parts), count, parts)
  {
    PrintRegion(lit, expr, rest);
    ScanReplaced(s, lit, inner, tail, PrintInner(expr), Print(rest));
    ParsesRegion(p, Print(parts), count, lit, PrintInner(expr), Print(rest), expr, rest);
  }

  lemma {:induction false} ReparseBytes(p: ExpressionParser, s: string, parts: seq<Part>,
                                        lit: string, inner: string, tail: string, expr: Expression, rest: seq<Part>)
    requires Scanned(s, lit, inner, tail) && p(inner) == Ok(expr) && Canonical(p, inner)
    requires ByteLen(Print(rest)) <= ByteLen(tail)
    requires parts == Before(lit) + [Expr(expr)] + rest
    ensures ByteLen(Print(parts)) <= ByteLen(s) && Print(parts) != []
  {
    PrintRegion(lit, expr, rest);
    RegionTextBytes(lit, inner, tail);
    RegionTextBytes(lit, PrintInner(expr), Print(rest));
  }

  ghost predicate CanonicalParser(p: ExpressionParser) {
    forall x :: Canonical(p, x)
  }

  lemma {:induction false} CanonicalAt(p: ExpressionParser, source: string)
    requires CanonicalParser(p)
    ensures Canonical(p, source)
  {}

  lemma {:induction false} ScannedShorter(s: string, lit: string, inner: string, tail: string)
    requires Scanned(s, lit, inner, tail)
    ensures |tail| < |s|
  {}

  lemma {:induction false} AcceptedNothing(p: ExpressionParser, count: nat, parts: seq<Part>)
    requires ParsesTo(p, [], count, parts)
    ensures parts == [] && Print(parts) == []
  {}

  /** The first region of an accepted source, and the rest. */
  lemma {:induction false} FirstRegion(p: ExpressionParser, s: string, count: nat, parts: seq<Part>)
    returns (lit: string, inner: string, tail: string, expr: Expression, rest: seq<Part>)
    requires FindPair(s, '{', 0).Some? && ParsesTo(p, s, count, parts)
    ensures Scanned(s, lit, inner, tail) && |tail| < |s|
    ensures p(inner) == Ok(expr) && count + |Before(lit)| < MAX_PARTS
    ensures ParsesTo(p, tail, count + |Before(lit)| + 1, rest)
    ensures parts == Before(lit) + [Expr(expr)] + rest
  {
    lit, inner, tail := AcceptedScan(p, s, count, parts);
    expr, rest := AcceptedRegion(p, s, count, parts, lit, inner, tail);
    ScannedShorter(s, lit, inner, tail);
  }

  /** `s` begins with this region, and its parts with the region's. */
  ghost predicate IsRegion(p: ExpressionParser, s: string, count: nat, parts: seq<Part>,
                           lit: string, inner: string, tail: string, expr: Expression, rest: seq<Part>)
  {
    && Scanned(s, lit, inner, tail) && p(inner) == Ok(expr) && count + |Before(lit)| < MAX_PARTS
    && ParsesTo(p, tail, count + |Before(lit)| + 1, rest) && parts == Before(lit) + [Expr(expr)] + rest
  }

  /** A claim about sources and their parts. */
  type Claim = (string, nat, seq<Part>) -> bool

  ghost predicate PlainCase(p: ExpressionParser, c: Claim) {
    forall s: string, count: nat, parts: seq<Part> ::
      FindPair(s, '{', 0).None? && ParsesTo(p, s, count, parts) ==> c(s, count, parts)
  }

  ghost predicate RegionCase(p: ExpressionParser, c: Claim) {
    forall s: string, count: nat, parts: seq<Part>, lit, inner, tail, expr, rest ::
      IsRegion(p, s, count, parts, lit, inner, tail, expr, rest) && c(tail, count + |Before(lit)| + 1, rest) ==>
        c(s, count, parts)
  }

  /** What holds of plain text, and of a source whenever it holds of what follows
      its first region, holds of every accepted source. */
  lemma {:induction false} AcceptedInduction(p: ExpressionParser, c: Claim, s: string, count: nat, parts: seq<Part>)
    requires PlainCase(p, c) && RegionCase(p, c) && ParsesTo(p, s, count, parts)
    ensures c(s, count, parts)
    decreases |s|
  {
    if FindPair(s, '{', 0).Some? {
      var lit, inner, tail, expr, rest := FirstRegion(p, s, count, parts);
      AcceptedInduction(p, c, tail, count + |Before(lit)| + 1, rest);
      assert IsRegion(p, s, count, parts, lit, inner, tail, expr, rest);
    }
  }

  /** What is proved of a source: its parts read back from a text that is no
      longer. */
  ghost predicate ReadsBack(p: ExpressionParser, s: string, count: nat, parts: seq<Part>) {
    && ParsesTo(p, Print(parts), count, parts)
    && ByteLen(Print(parts)) <= ByteLen(s)
    && (s != [] ==> Print(parts) != [])
  }

  lemma {:induction false} RegionReadsBack(p: ExpressionParser, s: string, count: nat, parts: seq<Part>,
                                           lit: string, inner: string, tail: string, expr: Expression, rest: seq<Part>)
    requires CanonicalParser(p) && Scanned(s, lit, inner, tail) && p(inner) == Ok(expr)
    requires count + |Before(lit)| < MAX_PARTS && parts == Before(lit) + [Expr(expr)] + rest
    requires ReadsBack(p, tail, count + |Before(lit)| + 1, rest)
    ensures ReadsBack(p, s, count, parts)
  {
    CanonicalAt(p, inner);
    ReparseRegion(p, s, count, parts, lit, inner, tail, expr, rest);
    ReparseBytes(p, s, parts, lit, inner, tail, expr, rest);
  }

  lemma {:induction false} PlainReadsBack(p: ExpressionParser, s: string, count: nat, parts: seq<Part>)
    requires FindPair(s, '{', 0).None? && ParsesTo(p, s, count, parts)
    ensures ReadsBack(p, s, count, parts)
  {
    if s == [] {
      AcceptedNothing(p, count, parts);
    } else {
      AcceptedLiteral(p, s, count, parts);
    }
  }

  /** For every accepted source, printing its parts and parsing again gives the
      same parts, from a text that is no longer. */
  lemma {:induction false} ReparseFrom(p: ExpressionParser, s: string, count: nat, parts: seq<Part>)
    requires CanonicalParser(p) && ParsesTo(p, s, count, parts)
    ensures ReadsBack(p, s, count, parts)
  {
    var claim: Claim := (s': string, count': nat, parts': seq<Part>) => ReadsBack(p, s', count', parts');
    forall s': string, count': nat, parts': seq<Part>
      | FindPair(s', '{', 0).None? && ParsesTo(p, s', count', parts')
      ensures claim(s', count', parts')
    {
      PlainReadsBack(p, s', count', parts');
    }
    forall s': string, count': nat, parts': seq<Part>, lit, inner, tail, expr, rest
      | IsRegion(p, s', count', parts', lit, inner, tail, expr, rest) && claim(tail, count' + |Before(lit)| + 1, rest)
      ensures claim(s', count', parts')
    {
      RegionReadsBack(p, s', count', parts', lit, inner, tail, expr, rest);
    }
    AcceptedInduction(p, claim, s, count, parts);
  }

  /** Printing the parts of any accepted source and parsing the text again
      gives exactly those parts. */
  lemma {:induction false} Reparse(source: string)
    requires Parse(source).Ok?
    ensures Parse(Print(Parse(source).value)) == Parse(source)
  {
    if source == "" {
      assert Print([Literal("")]) == "";
    } else {
      forall x ensures Canonical(ParseExpression, x) {
        ExpressionsCanonical(x);
      }
      ReparseFrom(ParseExpression, source, 0, Parse(source).value);
    }
  }

  /** A well-formed expression within the source limit, printed and parsed as a
      whole template, is that one expression. */
  lemma {:induction false} ParsePrinted(expr: Expression)
    requires WellFormed(expr) && ByteLen(PrintExpression(expr)) <= MAX_SOURCE_BYTES
    ensures Parse(PrintExpression(expr)) == Ok([Expr(expr)])
  {
    var inner := PrintInner(expr);
    InnerPlain(expr);
    ParsePrintedExpression(expr);
    ScanQuiet("", inner, "");
    assert RegionText("", inner, "") == PrintExpression(expr) by {
      Assoc("{{", inner, "}}");
    }
    assert ParsesTo(ParseExpression, "", 1, []);
    ParsesRegion(ParseExpression, PrintExpression(expr), 0, "", inner, "", expr, []);
    assert Before("") + [Expr(expr)] + [] == [Expr(expr)];
  }

  // ---------- The expressions of an accepted source ----------

  ghost predicate WellFormedParser(p: ExpressionParser) {
    forall x :: p(x).Ok? ==> WellFormed(p(x).value)
  }

  ghost predicate AllWellFormed(parts: seq<Part>) {
    forall i :: 0 <= i < |parts| && parts[i].Expr? ==> WellFormed(parts[i].expr)
  }

  lemma {:induction false} PlainWellFormed(p: ExpressionParser, s: string, count: nat, parts: seq<Part>)
    requires FindPair(s, '{', 0).None? && ParsesTo(p, s, count, parts)
    ensures AllWellFormed(parts)
  {
    if s == [] {
      AcceptedNothing(p, count, parts);
    } else {
      assert parts == [Literal(s)];
    }
  }

  lemma {:induction false} RegionWellFormed(lit: string, expr: Expression, rest: seq<Part>)
    requires WellFormed(expr) && AllWellFormed(rest)
    ensures AllWellFormed(Before(lit) + [Expr(expr)] + rest)
  {}

  lemma {:induction false} WellFormedAt(p: ExpressionParser, source: string)
    requires WellFormedParser(p) && p(source).Ok?
    ensures WellFormed(p(source).value)
  {}

  lemma {:induction false} PartsWellFormed(p: ExpressionParser, s: string, count: nat, parts: seq<Part>)
    requires WellFormedParser(p) && ParsesTo(p, s, count, parts)
    ensures AllWellFormed(parts)
  {
    var claim: Claim := (s': string, count': nat, parts': seq<Part>) => AllWellFormed(parts');
    forall s': string, count': nat, parts': seq<Part>
      | FindPair(s', '{', 0).None? && ParsesTo(p, s', count', parts')
      ensures claim(s', count', parts')
    {
      PlainWellFormed(p, s', count', parts');
    }
    forall s': string, count': nat, parts': seq<Part>, lit, inner, tail, expr, rest
      | IsRegion(p, s', count', parts', lit, inner, tail, expr, rest) && claim(tail, count' + |Before(lit)| + 1, rest)
      ensures claim(s', count', parts')
    {
      WellFormedAt(p, inner);
      RegionWellFormed(lit, expr, rest);
    }
    AcceptedInduction(p, claim, s, count, parts);
  }

  /** Every expression of every accepted source is well formed. */
  lemma {:induction false} AcceptedParts(source: string, i: nat)
    requires Parse(source).Ok? && i < |Parse(source).value| && Parse(source).value[i].Expr?
    ensures WellFormed(Parse(source).value[i].expr)
  {
    forall x | ParseExpression(x).Ok?
      ensures WellFormed(ParseExpression(x).value)
    {
      AcceptedExpression(x);
    }
    if source != "" {
      PartsWellFormed(ParseExpression, source, 0, Parse(source).value);
    }
  }

  /** The text has no doubled brace. */
  predicate CleanText(text: string) {
    FindPair(text, '{', 0).None? && FindPair(text, '}', 0).None?
  }

  lemma {:induction false} CleanPrefix(s: string, lit: string, inner: string, tail: string)
    requires Scanned(s, lit, inner, tail)
    ensures CleanText(lit)
  {
    FindPairFirst(s, '{', 0);
    FindPairFirst(s, '}', 0);
    FindPairFirst(lit, '{', 0);
    FindPairFirst(lit, '}', 0);
    RegionTextShape(lit, inner, tail);
    assert forall j :: 0 <= j < |lit| ==> lit[j] == s[..|lit|][j] == s[j];
    assert forall j :: PairAt(lit, '{', j) ==> PairAt(s, '{', j);
    assert forall j :: PairAt(lit, '}', j) ==> PairAt(s, '}', j);
  }

  lemma {:induction false} PlainIsClean(p: ExpressionParser, s: string, count: nat, parts: seq<Part>)
    requires s != [] && FindPair(s, '{', 0).None? && ParsesTo(p, s, count, parts)
    ensures CleanText(s) && parts == [Literal(s)] && count < MAX_PARTS
  {}

  ghost predicate AllClean(parts: seq<Part>) {
    forall i :: 0 <= i < |parts| && parts[i].Literal? ==> CleanText(parts[i].text)
  }

  /** The literals are clean, and with `count` parts before them there are not
      too many. */
  ghost predicate Tidy(parts: seq<Part>, count: nat) {
    AllClean(parts) && (parts != [] ==> count + |parts| <= MAX_PARTS)
  }

  lemma {:induction false} RegionTidy(lit: string, expr: Expression, rest: seq<Part>, count: nat)
    requires CleanText(lit) && Tidy(rest, count + |Before(lit)| + 1) && count + |Before(lit)| < MAX_PARTS
    ensures Tidy(Before(lit) + [Expr(expr)] + rest, count)
  {}

  lemma {:induction false} PlainTidy(p: ExpressionParser, s: string, count: nat, parts: seq<Part>)
    requires FindPair(s, '{', 0).None? && ParsesTo(p, s, count, parts)
    ensures Tidy(parts, count)
  {
    if s == [] {
      AcceptedNothing(p, count, parts);
    } else {
      PlainIsClean(p, s, count, parts);
    }
  }

  lemma {:induction false} PartsClean(p: ExpressionParser, s: string, count: nat, parts: seq<Part>)
    requires ParsesTo(p, s, count, parts)
    ensures Tidy(parts, count)
  {
    var claim: Claim := (s': string, count': nat, parts': seq<Part>) => Tidy(parts', count');
    forall s': string, count': nat, parts': seq<Part>
      | FindPair(s', '{', 0).None? && ParsesTo(p, s', count', parts')
      ensures claim(s', count', parts')
    {
      PlainTidy(p, s', count', parts');
    }
    forall s': string, count': nat, parts': seq<Part>, lit, inner, tail, expr, rest
      | IsRegion(p, s', count', parts', lit, inner, tail, expr, rest) && claim(tail, count' + |Before(lit)| + 1, rest)
      ensures claim(s', count', parts')
    {
      CleanPrefix(s', lit, inner, tail);
      RegionTidy(lit, expr, rest, count');
    }
    AcceptedInduction(p, claim, s, count, parts);
  }

  /** The literal text of an accepted source never holds a doubled brace, and
      there are at most 4096 parts, from at most 1 MiB. */
  lemma {:induction false} AcceptedClean(source: string)
    requires Parse(source).Ok?
    ensures AllClean(Parse(source).value) && |Parse(source).value| <= MAX_PARTS && ByteLen(source) <= MAX_SOURCE_BYTES
  {
    if source != "" {
      PartsClean(ParseExpression, source, 0, Parse(source).value);
    }
  }
}
