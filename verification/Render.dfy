/** Rendering templates: path lookup, the six filters under a running byte
    budget, and expansion of a whole source. */
module Render {
  import opened Text
  import opened Json
  import opened Template
  import opened Encoding

  const MAX_RENDERED_BYTES: nat := 8388608

  type Vars = map<string, Json>

  // ---------- Lookup ----------

  /** One step of a path into a value. */
  function Child(value: Json, part: PathPart): Option<Json> {
    match part
    case Index(i) => if value.Arr? && i < |value.items| then Some(value.items[i]) else None
    case Key(k) => if value.Obj? && k in value.members then Some(value.members[k]) else None
  }

  function PartName(part: PathPart): string {
    match part
    case Index(i) => "[" + Decimal(i) + "]"
    case Key(k) => k
  }

  function Walk(value: Json, path: seq<PathPart>): Result<Json, Error> {
    if path == [] then Ok(value)
    else match Child(value, path[0])
         case Some(next) => Walk(next, path[1..])
         case None => Err(Missing(PartName(path[0])))
  }

  function Lookup(vars: Vars, path: seq<PathPart>): Result<Json, Error> {
    if path == [] || path[0].Index? then Err(Syntax)
    else if path[0].name !in vars then Err(Missing(path[0].name))
    else Walk(vars[path[0].name], path[1..])
  }

  method LookupPath(vars: Vars, path: seq<PathPart>) returns (r: Result<Json, Error>)
    ensures r == Lookup(vars, path)
  {
    if path == [] || path[0].Index? {
      return Err(Syntax);
    }
    if path[0].name !in vars {
      return Err(Missing(path[0].name));
    }
    var value := vars[path[0].name];
    ghost var goal := Walk(value, path[1..]);
    for i := 1 to |path|
      invariant Walk(value, path[i..]) == goal
    {
      assert path[i..][1..] == path[i + 1..];
      var next := Child(value, path[i]);
      if next.None? {
        return Err(Missing(PartName(path[i])));
      }
      value := next.value;
    }
    r := Ok(value);
  }

  // ---------- What a path selects ----------

  /** The value with `leaf` in the place of one part. */
  function PutChild(value: Json, part: PathPart, leaf: Json): Json {
    match part
    case Index(i) => if value.Arr? && i < |value.items| then Arr(value.items[i := leaf]) else value
    case Key(k) => if value.Obj? then Obj(value.members[k := leaf]) else value
  }

  /** The value with `leaf` at the end of a path that exists. */
  function Put(value: Json, path: seq<PathPart>, leaf: Json): Json {
    if path == [] then leaf
    else match Child(value, path[0])
         case None => value
         case Some(next) => PutChild(value, path[0], Put(next, path[1..], leaf))
  }

  lemma {:induction false} ChildPut(value: Json, part: PathPart, leaf: Json, other: PathPart)
    requires Child(value, part).Some?
    ensures Child(PutChild(value, part, leaf), other) == if other == part then Some(leaf) else Child(value, other)
  {}

  /** Looking up what was put gives it back. */
  lemma {:induction false} PutGet(value: Json, path: seq<PathPart>, leaf: Json)
    requires Walk(value, path).Ok?
    ensures Walk(Put(value, path, leaf), path) == Ok(leaf)
  {
    if path != [] {
      var next := Child(value, path[0]).value;
      PutGet(next, path[1..], leaf);
      ChildPut(value, path[0], Put(next, path[1..], leaf), path[0]);
    }
  }

  /** The paths part: neither leads along the other. */
  predicate Apart(p: seq<PathPart>, q: seq<PathPart>) {
    p != [] && q != [] && (p[0] != q[0] || Apart(p[1..], q[1..]))
  }

  /** Putting changes nothing on paths that part from it. */
  lemma {:induction false} PutElsewhere(value: Json, path: seq<PathPart>, leaf: Json, other: seq<PathPart>)
    requires Walk(value, path).Ok? && Apart(path, other)
    ensures Walk(Put(value, path, leaf), other) == Walk(value, other)
  {
    var next := Child(value, path[0]).value;
    ChildPut(value, path[0], Put(next, path[1..], leaf), other[0]);
    if path[0] == other[0] {
      PutElsewhere(next, path[1..], leaf, other[1..]);
    }
  }

  /** Indices count from the front. */
  lemma {:induction false} IndexCounts(x: Json, rest: seq<Json>, i: nat)
    ensures Child(Arr([x] + rest), Index(0)) == Some(x)
    ensures Child(Arr([x] + rest), Index(i + 1)) == Child(Arr(rest), Index(i))
  {}

  lemma {:induction false} KeySelects(members: map<string, Json>, k: string)
    ensures Child(Obj(members), Key(k)) == if k in members then Some(members[k]) else None
  {}

  /** A path fails exactly at its first part that does not exist. */
  lemma {:induction false} WalkMissing(value: Json, path: seq<PathPart>, k: nat)
    requires k < |path| && Walk(value, path[..k]).Ok? && Child(Walk(value, path[..k]).value, path[k]).None?
    ensures Walk(value, path) == Err(Missing(PartName(path[k])))
  {
    if k > 0 {
      var next := Child(value, path[..k][0]).value;
      assert path[..k][1..] == path[1..][..k - 1];
      WalkMissing(next, path[1..], k - 1);
    }
  }

  /** Every failure is of this kind. */
  lemma {:induction false} WalkFails(value: Json, path: seq<PathPart>) returns (k: nat)
    requires Walk(value, path).Err?
    ensures k < |path| && Walk(value, path[..k]).Ok? && Child(Walk(value, path[..k]).value, path[k]).None?
  {
    match Child(value, path[0])
    case None =>
      k := 0;
    case Some(next) =>
      var rest := WalkFails(next, path[1..]);
      k := rest + 1;
      assert path[..k][1..] == path[1..][..rest];
  }

  // ---------- Filters ----------

  /** The text of a scalar; arrays and objects have none. */
  function ScalarText(value: Json): Option<string> {
    match value
    case Null => Some("null")
    case Bool(b) => Some(if b then "true" else "false")
    case Int(n) => Some(EncodeInt(n))
    case Str(s) => Some(s)
    case _ => None
  }

  /** The bytes that the base64 filter accepts: a string, or an array of bytes. */
  function Base64Input(value: Json): Option<seq<byte>> {
    match value
    case Str(s) => Some(Utf8(s))
    case Arr(items) => ByteItems(items)
    case _ => None
  }

  function ByteItems(items: seq<Json>): Option<seq<byte>> {
    if items == [] then Some([])
    else if items[0].Int? && 0 <= items[0].n <= 255 then
      match ByteItems(items[1..])
      case Some(rest) => Some([items[0].n] + rest)
      case None => None
    else None
  }

  function RenderScalar(value: Json, max: int): Result<string, Error> {
    match ScalarText(value)
    case None => Err(TypeError)
    case Some(text) => if ByteLen(text) > max then Err(Limit) else Ok(text)
  }

  /** One filter with at most `max` bytes of budget. */
  function Apply(filter: Filter, value: Json, max: int): Result<string, Error> {
    match filter
    case FJson =>
      var encoded := Encode(value);
      if ByteLen(encoded) > max then Err(Limit) else Ok(encoded)
    case FBase64 =>
      (match Base64Input(value)
       case None => Err(TypeError)
       case Some(bytes) => if (|bytes| + 2) / 3 * 4 > max then Err(Limit) else Ok(Base64(bytes)))
    case FUrl =>
      (match RenderScalar(value, max)
       case Err(e) => Err(e)
       case Ok(text) => if ByteLen(text) * 3 > max then Err(Limit) else Ok(PercentEncode(Utf8(text))))
    case FHeader =>
      (match RenderScalar(value, max)
       case Err(e) => Err(e)
       case Ok(text) => if '\r' in text || '\n' in text then Err(UnsafeHeader) else Ok(text))
    case _ => RenderScalar(value, max)
  }

  function RenderExpression(expr: Expression, vars: Vars, max: int): Result<string, Error> {
    match Lookup(vars, expr.path)
    case Err(e) => Err(e)
    case Ok(value) => Apply(expr.filter, value, max)
  }

  // ---------- Expansion ----------

  /** `out` with one more part, if the budget allows. */
  function AppendPart(part: Part, vars: Vars, out: string): Result<string, Error> {
    match part
    case Literal(text) =>
      if ByteLen(out) + ByteLen(text) > MAX_RENDERED_BYTES then Err(Limit) else Ok(out + text)
    case Expr(expr) =>
      match RenderExpression(expr, vars, MAX_RENDERED_BYTES - ByteLen(out))
      case Err(e) => Err(e)
      case Ok(rendered) => Ok(out + rendered)
  }

  /** The parts from position `i` on, after `out`. */
  function RenderParts(parts: seq<Part>, i: nat, vars: Vars, out: string): Result<string, Error>
    requires i <= |parts|
    decreases |parts| - i
  {
    if i == |parts| then Ok(out)
    else match AppendPart(parts[i], vars, out)
         case Err(e) => Err(e)
         case Ok(next) => RenderParts(parts, i + 1, vars, next)
  }

  function Expand(input: string, vars: Vars): Result<string, Error> {
    match Parse(input)
    case Err(e) => Err(e)
    case Ok(parts) => RenderParts(parts, 0, vars, "")
  }

  method RenderLoop(parts: seq<Part>, vars: Vars) returns (r: Result<string, Error>)
    ensures r == RenderParts(parts, 0, vars, "")
  {
    r := Ok("");
    var i := 0;
    while r.Ok? && i < |parts|
      invariant 0 <= i <= |parts|
      invariant (if r.Ok? then RenderParts(parts, i, vars, r.value) else r) == RenderParts(parts, 0, vars, "")
    {
      r := AppendPart(parts[i], vars, r.value);
      i := i + 1;
    }
  }

  /** `Expand`: parse the source, then append one rendered part after another. */
  method ExpandTemplate(input: string, vars: Vars) returns (r: Result<string, Error>)
    ensures r == Expand(input, vars)
    ensures r.Ok? ==> ByteLen(r.value) <= MAX_RENDERED_BYTES
  {
    var parsed := ParseTemplate(input);
    if parsed.Err? {
      return Err(parsed.error);
    }
    r := RenderLoop(parsed.value, vars);
    ExpandWithinLimit(input, vars);
  }

  // ---------- What a filter writes can be read ----------

  /** The text of a scalar says which scalar it is: a string is its own text,
      and the text of every other scalar reads as that scalar. */
  lemma {:induction false} ScalarReads(value: Json)
    ensures ScalarText(value).Some? <==> !value.Arr? && !value.Obj?
    ensures value.Str? ==> ScalarText(value) == Some(value.s)
    ensures ScalarText(value).Some? && !value.Str? ==> Decode(ScalarText(value).value) == Some(value)
  {
    if ScalarText(value).Some? && !value.Str? {
      assert ScalarText(value).value == Encode(value);
      EncodeRoundTrip(value);
    }
  }

  /** The bytes of an array: each item is a byte, in order. */
  lemma {:induction false} ByteItemsExact(items: seq<Json>)
    ensures ByteItems(items).Some? <==> forall i :: 0 <= i < |items| ==> items[i].Int? && 0 <= items[i].n < 256
    ensures ByteItems(items).Some? ==>
              && |ByteItems(items).value| == |items|
              && forall i :: 0 <= i < |items| ==> ByteItems(items).value[i] == items[i].n
  {
    if items != [] {
      ByteItemsExact(items[1..]);
    }
  }

  /** Whatever a filter writes can be read back: JSON as the value, base64 as
      the bytes, a percent-encoding as the text; the others write the text. */
  lemma {:induction false} FilterReads(filter: Filter, value: Json, out: string)
    requires Meaning(filter, value) == Some(out)
    ensures filter == FJson ==> Decode(out) == Some(value)
    ensures filter == FBase64 ==> Base64Input(value).Some? && ReadBase64(out) == Base64Input(value)
    ensures filter == FUrl ==> ScalarText(value).Some? && Unescape(out, false) == Some(Utf8(ScalarText(value).value))
    ensures filter == FString || filter == FRaw || filter == FHeader ==> ScalarText(value) == Some(out)
    ensures filter == FHeader ==> '\r' !in out && '\n' !in out
  {
    match filter {
      case FJson => EncodeRoundTrip(value);
      case FBase64 => Base64RoundTrip(Base64Input(value).value);
      case FUrl => PercentEncodeCorrect(Utf8(ScalarText(value).value));
      case _ =>
    }
  }

  // ---------- The budget holds ----------

  /** Each filter stays within the budget it is given. */
  lemma {:induction false} ApplyWithinBudget(filter: Filter, value: Json, max: int)
    requires Apply(filter, value, max).Ok?
    ensures ByteLen(Apply(filter, value, max).value) <= max
  {
    match filter {
      case FBase64 =>
        var bytes := Base64Input(value).value;
        Base64Length(bytes);
        AsciiByteLen(Base64(bytes));
      case FUrl =>
        var bytes := Utf8(RenderScalar(value, max).value);
        PercentEncodeLength(bytes);
        AsciiByteLen(PercentEncode(bytes));
      case _ =>
    }
  }

  lemma {:induction false} RenderWithinBudget(expr: Expression, vars: Vars, max: int)
    requires RenderExpression(expr, vars, max).Ok?
    ensures ByteLen(RenderExpression(expr, vars, max).value) <= max
  {
    ApplyWithinBudget(expr.filter, Lookup(vars, expr.path).value, max);
  }

  lemma {:induction false} AppendWithinLimit(part: Part, vars: Vars, out: string)
    requires ByteLen(out) <= MAX_RENDERED_BYTES && AppendPart(part, vars, out).Ok?
    ensures ByteLen(AppendPart(part, vars, out).value) <= MAX_RENDERED_BYTES
  {
    match part {
      case Literal(text) =>
        Utf8Concat(out, text);
      case Expr(expr) =>
        RenderWithinBudget(expr, vars, MAX_RENDERED_BYTES - ByteLen(out));
        Utf8Concat(out, RenderExpression(expr, vars, MAX_RENDERED_BYTES - ByteLen(out)).value);
    }
  }

  lemma {:induction false} PartsWithinLimit(parts: seq<Part>, i: nat, vars: Vars, out: string)
    requires i <= |parts| && ByteLen(out) <= MAX_RENDERED_BYTES && RenderParts(parts, i, vars, out).Ok?
    ensures ByteLen(RenderParts(parts, i, vars, out).value) <= MAX_RENDERED_BYTES
    decreases |parts| - i
  {
    if i < |parts| {
      AppendWithinLimit(parts[i], vars, out);
      PartsWithinLimit(parts, i + 1, vars, AppendPart(parts[i], vars, out).value);
    }
  }

  /** For every source and all variables, a successful expansion stays within
      the rendered-byte limit. */
  lemma {:induction false} ExpandWithinLimit(input: string, vars: Vars)
    ensures Expand(input, vars).Ok? ==> ByteLen(Expand(input, vars).value) <= MAX_RENDERED_BYTES
  {
    if Expand(input, vars).Ok? {
      PartsWithinLimit(Parse(input).value, 0, vars, "");
    }
  }

  // ---------- A part that cannot be rendered ----------

  /** The expression fails with every budget there can be. */
  ghost predicate Broken(part: Part, vars: Vars) {
    part.Expr? && forall max :: max <= MAX_RENDERED_BYTES ==> RenderExpression(part.expr, vars, max).Err?
  }

  /** One broken part is enough for the whole template to fail. */
  lemma {:induction false} BrokenFails(parts: seq<Part>, i: nat, k: nat, vars: Vars, out: string)
    requires i <= k < |parts| && Broken(parts[k], vars)
    ensures RenderParts(parts, i, vars, out).Err?
    decreases |parts| - i
  {
    if i < k && AppendPart(parts[i], vars, out).Ok? {
      BrokenFails(parts, i + 1, k, vars, AppendPart(parts[i], vars, out).value);
    } else if i == k {
      assert RenderExpression(parts[k].expr, vars, MAX_RENDERED_BYTES - ByteLen(out)).Err?;
    }
  }

  lemma {:induction false} EscapedLength(s: string)
    ensures |s| <= |EscapeChars(s)|
  {
    if s != [] {
      EscapedLength(s[1..]);
    }
  }

  lemma {:induction false} LongTextFails(filter: Filter, text: string, max: int)
    requires max <= MAX_RENDERED_BYTES < |text|
    ensures Apply(filter, Str(text), max).Err?
  {
    EscapedLength(text);
  }

  /** A string over the limit breaks every expression that begins with it: no
      filter writes it, and no path leads into it. */
  lemma {:induction false} LongTextBreaks(expr: Expression, vars: Vars, text: string)
    requires expr.path != [] && expr.path[0].Key? && expr.path[0].name in vars
    requires vars[expr.path[0].name] == Str(text) && |text| > MAX_RENDERED_BYTES
    ensures Broken(Expr(expr), vars)
  {
    forall max | max <= MAX_RENDERED_BYTES
      ensures RenderExpression(expr, vars, max).Err?
    {
      LongTextFails(expr.filter, text, max);
    }
  }

  /** Literal text expands in the same way whatever the variables are. */
  lemma {:induction false} LiteralsIgnoreVars(parts: seq<Part>, i: nat, a: Vars, b: Vars, out: string)
    requires i <= |parts| && forall k :: i <= k < |parts| ==> parts[k].Literal?
    ensures RenderParts(parts, i, a, out) == RenderParts(parts, i, b, out)
    decreases |parts| - i
  {
    if i < |parts| && AppendPart(parts[i], a, out).Ok? {
      LiteralsIgnoreVars(parts, i + 1, a, b, AppendPart(parts[i], a, out).value);
    }
  }

  // ---------- The budget changes nothing else ----------

  /** What a filter writes, with no limit at all. */
  function Meaning(filter: Filter, value: Json): Option<string> {
    match filter
    case FJson => Some(Encode(value))
    case FBase64 =>
      (match Base64Input(value)
       case Some(bytes) => Some(Base64(bytes))
       case None => None)
    case FUrl =>
      (match ScalarText(value)
       case Some(text) => Some(PercentEncode(Utf8(text)))
       case None => None)
    case FHeader =>
      (match ScalarText(value)
       case Some(text) => if '\r' in text || '\n' in text then None else Some(text)
       case None => None)
    case _ => ScalarText(value)
  }

  function PartMeaning(part: Part, vars: Vars): Option<string> {
    match part
    case Literal(text) => Some(text)
    case Expr(expr) =>
      match Lookup(vars, expr.path)
      case Ok(value) => Meaning(expr.filter, value)
      case Err(_) => None
  }

  function TemplateMeaning(parts: seq<Part>, i: nat, vars: Vars): Option<string>
    requires i <= |parts|
    decreases |parts| - i
  {
    if i == |parts| then Some("")
    else match (PartMeaning(parts[i], vars), TemplateMeaning(parts, i + 1, vars))
         case (Some(text), Some(rest)) => Some(text + rest)
         case _ => None
  }

  /** What a result within a budget says about the meaning without one, when
      `needed` bytes are asked for. */
  ghost predicate Agrees(result: Result<string, Error>, meaning: Option<string>, needed: nat, max: int) {
    && (result.Ok? ==> meaning == Some(result.value))
    && (result.Err? && result.error != Limit ==> meaning == None)
    && (meaning.Some? ==> (result.Ok? <==> needed <= max))
  }

  /** The bytes a filter asks for: its result, but three times its input for
      the `url` filter. */
  function Needed(filter: Filter, value: Json): nat {
    if filter == FUrl then if ScalarText(value).Some? then 3 * ByteLen(ScalarText(value).value) else 0
    else if Meaning(filter, value).Some? then ByteLen(Meaning(filter, value).value) else 0
  }

  lemma {:induction false} Base64Meaning(value: Json, max: int)
    ensures Agrees(Apply(FBase64, value, max), Meaning(FBase64, value), Needed(FBase64, value), max)
  {
    if Base64Input(value).Some? {
      Base64Length(Base64Input(value).value);
      AsciiByteLen(Base64(Base64Input(value).value));
    }
  }

  lemma {:induction false} ScalarMeaning(filter: Filter, value: Json, max: int)
    requires filter == FString || filter == FRaw || filter == FUrl || filter == FHeader
    ensures Agrees(Apply(filter, value, max), Meaning(filter, value), Needed(filter, value), max)
  {
    match filter {
      case FString =>
      case FRaw =>
      case FUrl =>
      case FHeader =>
      case _ =>
    }
  }

  /** A budgeted filter writes its meaning or fails, and fails for the budget
      exactly when the bytes it asks for do not fit. */
  lemma {:induction false} ApplyMeaning(filter: Filter, value: Json, max: int)
    ensures Agrees(Apply(filter, value, max), Meaning(filter, value), Needed(filter, value), max)
  {
    match filter {
      case FBase64 => Base64Meaning(value, max);
      case FJson =>
      case _ => ScalarMeaning(filter, value, max);
    }
  }

  lemma {:induction false} AppendMeaning(part: Part, vars: Vars, out: string)
    requires AppendPart(part, vars, out).Ok?
    ensures PartMeaning(part, vars).Some? && AppendPart(part, vars, out).value == out + PartMeaning(part, vars).value
  {
    if part.Expr? {
      ApplyMeaning(part.expr.filter, Lookup(vars, part.expr.path).value, MAX_RENDERED_BYTES - ByteLen(out));
    }
  }

  lemma {:induction false} PartsMeaning(parts: seq<Part>, i: nat, vars: Vars, out: string)
    requires i <= |parts| && RenderParts(parts, i, vars, out).Ok?
    ensures TemplateMeaning(parts, i, vars).Some?
    ensures RenderParts(parts, i, vars, out).value == out + TemplateMeaning(parts, i, vars).value
    decreases |parts| - i
  {
    if i == |parts| {
      assert out + "" == out;
    } else {
      AppendMeaning(parts[i], vars, out);
      PartsMeaning(parts, i + 1, vars, AppendPart(parts[i], vars, out).value);
      Assoc(out, PartMeaning(parts[i], vars).value, TemplateMeaning(parts, i + 1, vars).value);
    }
  }

  /** A successful expansion is the concatenation of what its parts mean, just
      as if there were no budget. */
  lemma {:induction false} ExpandMeaning(input: string, vars: Vars)
    requires Expand(input, vars).Ok?
    ensures Parse(input).Ok? && TemplateMeaning(Parse(input).value, 0, vars) == Some(Expand(input, vars).value)
  {
    PartsMeaning(Parse(input).value, 0, vars, "");
    var meaning := TemplateMeaning(Parse(input).value, 0, vars).value;
    assert "" + meaning == meaning;
  }
}
