/** The byte encoders of the program: percent-encoding for the `url` filter,
    form encoding for `--data-urlencode`, and base64. */
module Encoding {
  import opened Text

  // ---------- A reference decoder ----------

  /** Undoes `%XX` escapes; with `plus`, a plus sign means a space. Only ASCII
      text is legal on the wire. */
  function Unescape(s: string, plus: bool): Option<seq<byte>> {
    if s == [] then Some([])
    else if s[0] == '%' then
      if |s| < 3 then None
      else match (HexValue(s[1]), HexValue(s[2]))
           case (Some(a), Some(b)) => Cons(16 * a + b, Unescape(s[3..], plus))
           case _ => None
    else if s[0] as int >= 0x80 then None
    else Cons(if plus && s[0] == '+' then 0x20 else s[0] as int, Unescape(s[1..], plus))
  }

  function Cons(b: int, rest: Option<seq<byte>>): Option<seq<byte>> {
    match rest
    case None => None
    case Some(bytes) => if 0 <= b < 256 then Some([b] + bytes) else None
  }

  lemma {:induction false} UnescapeEscape(b: byte, rest: string, plus: bool)
    ensures Unescape(Escape(b) + rest, plus) == Cons(b, Unescape(rest, plus))
  {
    var s := Escape(b) + rest;
    assert s[3..] == rest;
    HexInverse(b / 16);
    HexInverse(b % 16);
  }

  lemma {:induction false} UnescapePlain(c: char, rest: string, plus: bool)
    requires c as int < 0x80 && c != '%'
    ensures Unescape([c] + rest, plus) == Cons(if plus && c == '+' then 0x20 else c as int, Unescape(rest, plus))
  {
    DropFirst(c, rest);
  }

  // ---------- Percent-encoding ----------

  predicate Alphanumeric(b: byte) {
    '0' as int <= b <= '9' as int || 'A' as int <= b <= 'Z' as int || 'a' as int <= b <= 'z' as int
  }

  /** The unreserved characters of section 2.3 of RFC 3986. */
  predicate Unreserved(b: byte) {
    Alphanumeric(b) || b == '-' as int || b == '.' as int || b == '_' as int || b == '~' as int
  }

  predicate NeedsPercentEncoding(b: byte) {
    || b >= 0x80 || b <= 0x1F || b == 0x7F
    || b == ' ' as int || b == '!' as int || b == '"' as int || b == '#' as int
    || b == '$' as int || b == '%' as int || b == '&' as int || b == '\'' as int
    || b == '(' as int || b == ')' as int || b == '*' as int || b == '+' as int
    || b == ',' as int || b == '/' as int || b == ':' as int || b == ';' as int
    || b == '<' as int || b == '=' as int || b == '>' as int || b == '?' as int
    || b == '@' as int || b == '[' as int || b == '\\' as int || b == ']' as int
    || b == '^' as int || b == '`' as int || b == '{' as int || b == '|' as int
    || b == '}' as int
  }

  /** The escaped set is exactly what RFC 3986 does not call unreserved. */
  lemma NeedsPercentEncodingExact(b: byte)
    ensures NeedsPercentEncoding(b) <==> !Unreserved(b)
  {}

  function PercentByte(b: byte): string {
    if NeedsPercentEncoding(b) then Escape(b) else [b as char]
  }

  function PercentEncode(bytes: seq<byte>): string {
    if bytes == [] then [] else PercentByte(bytes[0]) + PercentEncode(bytes[1..])
  }

  method PercentEncodeBytes(bytes: seq<byte>) returns (out: string)
    ensures out == PercentEncode(bytes)
  {
    out := "";
    for i := 0 to |bytes|
      invariant out + PercentEncode(bytes[i..]) == PercentEncode(bytes)
    {
      assert bytes[i..][1..] == bytes[i + 1..];
      Assoc(out, PercentByte(bytes[i]), PercentEncode(bytes[i + 1..]));
      if NeedsPercentEncoding(bytes[i]) {
        out := out + ['%', HexDigit(bytes[i] / 16), HexDigit(bytes[i] % 16)];
      } else {
        out := out + [bytes[i] as char];
      }
    }
  }

  /** Every byte of the output is unreserved, or part of a `%XX` escape. */
  predicate PercentEncoded(s: string) {
    s == [] ||
    if s[0] == '%' then
      |s| >= 3 && HexValue(s[1]).Some? && HexValue(s[2]).Some? && PercentEncoded(s[3..])
    else s[0] as int < 0x80 && Unreserved(s[0] as int) && PercentEncoded(s[1..])
  }

  lemma {:induction false} PercentByteStep(b: byte, rest: string)
    requires PercentEncoded(rest)
    ensures PercentEncoded(PercentByte(b) + rest)
    ensures Unescape(PercentByte(b) + rest, false) == Cons(b, Unescape(rest, false))
  {
    NeedsPercentEncodingExact(b);
    if NeedsPercentEncoding(b) {
      UnescapeEscape(b, rest, false);
      HexInverse(b / 16);
      HexInverse(b % 16);
      assert (Escape(b) + rest)[3..] == rest;
    } else {
      UnescapePlain(b as char, rest, false);
      DropFirst(b as char, rest);
    }
  }

  lemma {:induction false} PercentByteLength(b: byte)
    ensures 1 <= |PercentByte(b)| <= 3 && Ascii(PercentByte(b))
  {
    HexInverse(b / 16);
    HexInverse(b % 16);
  }

  /** The `url` filter writes only unreserved bytes and escapes, and decodes
      back to its input. */
  lemma {:induction false} PercentEncodeCorrect(bytes: seq<byte>)
    ensures PercentEncoded(PercentEncode(bytes))
    ensures Unescape(PercentEncode(bytes), false) == Some(bytes)
  {
    if bytes != [] {
      PercentEncodeCorrect(bytes[1..]);
      PercentByteStep(bytes[0], PercentEncode(bytes[1..]));
      assert [bytes[0]] + bytes[1..] == bytes;
    }
  }

  /** Percent-encoding at most triples the length. */
  lemma {:induction false} PercentEncodeLength(bytes: seq<byte>)
    ensures Ascii(PercentEncode(bytes)) && |bytes| <= |PercentEncode(bytes)| <= 3 * |bytes|
  {
    if bytes != [] {
      PercentByteLength(bytes[0]);
      PercentEncodeLength(bytes[1..]);
    }
  }

  // ---------- Form encoding ----------

  function FormByte(b: byte): string {
    if Alphanumeric(b) then [b as char] else if b == 0x20 then "+" else Escape(b)
  }

  function FormEncode(value: seq<byte>): string {
    if value == [] then [] else FormByte(value[0]) + FormEncode(value[1..])
  }

  method FormEncodeBytes(value: seq<byte>) returns (out: string)
    ensures out == FormEncode(value)
  {
    out := "";
    for i := 0 to |value|
      invariant out + FormEncode(value[i..]) == FormEncode(value)
    {
      assert value[i..][1..] == value[i + 1..];
      Assoc(out, FormByte(value[i]), FormEncode(value[i + 1..]));
      if Alphanumeric(value[i]) {
        out := out + [value[i] as char];
      } else if value[i] == 0x20 {
        out := out + "+";
      } else {
        out := out + Escape(value[i]);
      }
    }
  }

  lemma {:induction false} FormByteStep(b: byte, rest: string)
    ensures Unescape(FormByte(b) + rest, true) == Cons(b, Unescape(rest, true))
    ensures '&' !in FormByte(b) && '=' !in FormByte(b)
  {
    if Alphanumeric(b) {
      UnescapePlain(b as char, rest, true);
    } else if b == 0x20 {
      UnescapePlain('+', rest, true);
    } else {
      UnescapeEscape(b, rest, true);
      HexInverse(b / 16);
      HexInverse(b % 16);
    }
  }

  /** Form encoding decodes back, and never contains a separator. */
  lemma {:induction false} FormEncodeCorrect(value: seq<byte>)
    ensures Unescape(FormEncode(value), true) == Some(value)
    ensures '&' !in FormEncode(value) && '=' !in FormEncode(value)
  {
    if value != [] {
      FormEncodeCorrect(value[1..]);
      FormByteStep(value[0], FormEncode(value[1..]));
      assert [value[0]] + value[1..] == value;
    }
  }

  /** Letters and digits stay, a space is a plus sign, every other byte is an
      escape; and texts are encoded byte by byte. */
  lemma {:induction false} FormEncodeBytewise(a: seq<byte>, b: seq<byte>)
    ensures FormEncode(a + b) == FormEncode(a) + FormEncode(b)
    ensures |a| == 1 ==>
              FormEncode(a) == if Alphanumeric(a[0]) then [a[0] as char] else if a[0] == 0x20 then "+" else Escape(a[0])
  {
    if a == [] {
      assert a + b == b;
    } else {
      assert (a + b)[1..] == a[1..] + b;
      FormEncodeBytewise(a[1..], b);
      Assoc(FormByte(a[0]), FormEncode(a[1..]), FormEncode(b));
      if |a| == 1 {
        assert FormByte(a[0]) + [] == FormByte(a[0]);
      }
    }
  }

  const EQUALS: byte := '=' as int

  function UrlencodeEntry(entry: seq<byte>): string {
    match IndexOf(entry, EQUALS)
    case None => FormEncode(entry)
    case Some(i) => FormEncode(entry[..i]) + "=" + FormEncode(entry[i + 1..])
  }

  /** What an entry means: `name=content`, or content without a name. */
  datatype Field = Field(name: Option<seq<byte>>, content: seq<byte>)

  function FieldOf(entry: seq<byte>): Field {
    match IndexOf(entry, EQUALS)
    case None => Field(None, entry)
    case Some(i) => Field(Some(entry[..i]), entry[i + 1..])
  }

  /** How a form-encoded piece is read. */
  function ReadField(piece: string): Option<Field> {
    match IndexOf(piece, '=')
    case None =>
      (match Unescape(piece, true)
       case Some(content) => Some(Field(None, content))
       case None => None)
    case Some(i) =>
      match (Unescape(piece[..i], true), Unescape(piece[i + 1..], true))
      case (Some(name), Some(content)) => Some(Field(Some(name), content))
      case _ => None
  }

  lemma {:induction false} ReadUrlencodeEntry(entry: seq<byte>)
    ensures ReadField(UrlencodeEntry(entry)) == Some(FieldOf(entry))
    ensures '&' !in UrlencodeEntry(entry)
  {
    match IndexOf(entry, EQUALS) {
      case None =>
        FormEncodeCorrect(entry);
      case Some(i) =>
        var name, content := FormEncode(entry[..i]), FormEncode(entry[i + 1..]);
        FormEncodeCorrect(entry[..i]);
        FormEncodeCorrect(entry[i + 1..]);
        var piece := name + "=" + content;
        assert piece[..|name|] == name && piece[|name| + 1..] == content;
        IndexOfIs(piece, '=', |name|);
    }
  }

  // ---------- The request target ----------

  datatype Request = Request(bodyParts: seq<string>, dataUrlencode: seq<seq<byte>>, getFlag: bool, rawQuery: string)

  datatype Target = Target(query: string, body: string, hasBody: bool)

  function Encoded(entries: seq<seq<byte>>): (r: seq<string>)
    ensures |r| == |entries|
  {
    if entries == [] then [] else [UrlencodeEntry(entries[0])] + Encoded(entries[1..])
  }

  /** `buildTarget`: with `--get` the data joins the query, otherwise it is the body. */
  function BuildTarget(r: Request): Target {
    var parts := r.bodyParts + Encoded(r.dataUrlencode);
    if r.getFlag then
      if parts == [] then Target(r.rawQuery, "", false)
      else
        var query := Join(parts, '&');
        Target(if r.rawQuery != "" then r.rawQuery + "&" + query else query, "", false)
    else if parts == [] then Target(r.rawQuery, "", false)
    else Target(r.rawQuery, Join(parts, '&'), true)
  }

  method BuildRequestTarget(r: Request) returns (target: Target)
    ensures target == BuildTarget(r)
  {
    var encoded: seq<string> := [];
    for i := 0 to |r.dataUrlencode|
      invariant encoded + Encoded(r.dataUrlencode[i..]) == Encoded(r.dataUrlencode)
    {
      assert r.dataUrlencode[i..][1..] == r.dataUrlencode[i + 1..];
      Assoc(encoded, [UrlencodeEntry(r.dataUrlencode[i])], Encoded(r.dataUrlencode[i + 1..]));
      encoded := encoded + [UrlencodeEntry(r.dataUrlencode[i])];
    }
    assert encoded == Encoded(r.dataUrlencode);
    var hasBody := |r.bodyParts| > 0 || |r.dataUrlencode| > 0;
    if r.getFlag {
      var query := r.rawQuery;
      if |r.bodyParts| > 0 || |encoded| > 0 {
        query := Join(r.bodyParts + encoded, '&');
        if r.rawQuery != "" {
          query := r.rawQuery + "&" + query;
        }
      }
      return Target(query, "", false);
    }
    if !hasBody {
      return Target(r.rawQuery, "", false);
    }
    return Target(r.rawQuery, Join(r.bodyParts + encoded, '&'), true);
  }

  function ReadFields(pieces: seq<string>): Option<seq<Field>> {
    if pieces == [] then Some([])
    else match (ReadField(pieces[0]), ReadFields(pieces[1..]))
         case (Some(f), Some(rest)) => Some([f] + rest)
         case _ => None
  }

  function Fields(entries: seq<seq<byte>>): seq<Field> {
    if entries == [] then [] else [FieldOf(entries[0])] + Fields(entries[1..])
  }

  lemma {:induction false} ReadEncoded(entries: seq<seq<byte>>)
    ensures ReadFields(Encoded(entries)) == Some(Fields(entries))
    ensures forall i :: 0 <= i < |Encoded(entries)| ==> '&' !in Encoded(entries)[i]
  {
    if entries != [] {
      ReadUrlencodeEntry(entries[0]);
      ReadEncoded(entries[1..]);
      DropFirst(UrlencodeEntry(entries[0]), Encoded(entries[1..]));
    }
  }

  /** For every non-empty list of urlencode entries without raw parts, cutting
      the request body at `&` and decoding gives back all names and contents in
      order; with `--get` and no earlier query the query string carries them. */
  lemma UrlencodeRoundTrip(r: Request)
    requires r.bodyParts == [] && r.dataUrlencode != []
    ensures BuildTarget(r).hasBody == !r.getFlag
    ensures !r.getFlag ==> ReadFields(Split(BuildTarget(r).body, '&')) == Some(Fields(r.dataUrlencode))
    ensures r.getFlag && r.rawQuery == "" ==>
              ReadFields(Split(BuildTarget(r).query, '&')) == Some(Fields(r.dataUrlencode))
  {
    var encoded := Encoded(r.dataUrlencode);
    assert r.bodyParts + encoded == encoded;
    ReadEncoded(r.dataUrlencode);
    SplitJoin(encoded, '&');
  }

  /** The pieces of several texts, one after another. */
  function AllPieces(parts: seq<string>): seq<string> {
    if parts == [] then [] else Split(parts[0], '&') + AllPieces(parts[1..])
  }

  lemma {:induction false} SplitTwo(a: string, b: string)
    ensures Split(a + "&" + b, '&') == Split(a, '&') + Split(b, '&')
  {
    var s := a + "&" + b;
    if a == [] {
      assert s == [] + ['&'] + b;
      SplitHead([], b, '&');
    } else {
      assert s[1..] == a[1..] + "&" + b;
      SplitTwo(a[1..], b);
    }
  }

  lemma {:induction false} SplitJoined(parts: seq<string>)
    requires parts != []
    ensures Split(Join(parts, '&'), '&') == AllPieces(parts)
  {
    if |parts| == 1 {
      assert AllPieces(parts[1..]) == [];
      assert Split(parts[0], '&') + [] == Split(parts[0], '&');
    } else {
      SplitJoined(parts[1..]);
      SplitTwo(parts[0], Join(parts[1..], '&'));
    }
  }

  /** Everything reaches its place, in order: what the URL already asked for,
      then the raw data, then the encoded entries; and without data the URL is
      left alone. */
  lemma {:induction false} TargetPieces(r: Request)
    ensures var parts := r.bodyParts + Encoded(r.dataUrlencode);
            var target := BuildTarget(r);
            && (parts == [] ==> target == Target(r.rawQuery, "", false))
            && (parts != [] && !r.getFlag ==>
                  target.query == r.rawQuery && target.hasBody && Split(target.body, '&') == AllPieces(parts))
            && (parts != [] && r.getFlag ==>
                  && !target.hasBody && target.body == ""
                  && Split(target.query, '&') ==
                       (if r.rawQuery == "" then [] else Split(r.rawQuery, '&')) + AllPieces(parts))
  {
    var parts := r.bodyParts + Encoded(r.dataUrlencode);
    if parts != [] {
      SplitJoined(parts);
      if r.rawQuery != "" {
        SplitTwo(r.rawQuery, Join(parts, '&'));
      } else {
        assert [] + AllPieces(parts) == AllPieces(parts);
      }
    }
  }

  // ---------- Base64 ----------

  function Base64Digit(n: int): (c: char)
    requires 0 <= n < 64
    ensures c as int < 0x80
  {
    if n < 26 then ('A' as int + n) as char
    else if n < 52 then ('a' as int + n - 26) as char
    else if n < 62 then ('0' as int + n - 52) as char
    else if n == 62 then '+'
    else '/'
  }

  /** One to three bytes as four characters, padded. */
  function Base64Group(b: seq<byte>): (r: string)
    requires 1 <= |b| <= 3
    ensures |r| == 4 && Ascii(r)
  {
    var second := if |b| > 1 then b[1] else 0;
    var third := if |b| > 2 then b[2] else 0;
    [Base64Digit(b[0] / 4),
     Base64Digit(b[0] % 4 * 16 + second / 16),
     if |b| > 1 then Base64Digit(second % 16 * 4 + third / 64) else '=',
     if |b| > 2 then Base64Digit(third % 64) else '=']
  }

  /** Standard base64 with padding. */
  function Base64(b: seq<byte>): string {
    if b == [] then []
    else if |b| <= 3 then Base64Group(b)
    else Base64Group(b[..3]) + Base64(b[3..])
  }

  /** The size that the `base64` filter budgets for is the size it writes. */
  lemma {:induction false} Base64Length(b: seq<byte>)
    ensures |Base64(b)| == (|b| + 2) / 3 * 4 && Ascii(Base64(b))
  {
    if |b| > 3 {
      var rest := |b| - 3;
      Base64Length(b[3..]);
      assert (rest + 5) / 3 == (rest + 2) / 3 + 1;
    }
  }

  // ---------- Reading base64 ----------

  /** The value of a base64 digit, by section 4 of RFC 4648. */
  function Base64Value(c: char): Option<int> {
    if 'A' <= c <= 'Z' then Some(c as int - 'A' as int)
    else if 'a' <= c <= 'z' then Some(c as int - 'a' as int + 26)
    else if '0' <= c <= '9' then Some(c as int - '0' as int + 52)
    else if c == '+' then Some(62)
    else if c == '/' then Some(63)
    else None
  }

  lemma {:induction false} Base64DigitBack(n: int)
    requires 0 <= n < 64
    ensures Base64Value(Base64Digit(n)) == Some(n) && Base64Digit(n) != '='
  {}

  /** The bytes of four characters; padding shortens the group. */
  function ReadGroup(g: string): Option<seq<byte>>
    requires |g| == 4
  {
    match (Base64Value(g[0]), Base64Value(g[1]))
    case (Some(a), Some(b)) =>
      if g[2] == '=' && g[3] == '=' then GroupBytes(a, b, 0, 0, 1)
      else if g[3] == '=' then
        match Base64Value(g[2])
        case Some(c) => GroupBytes(a, b, c, 0, 2)
        case None => None
      else
        (match (Base64Value(g[2]), Base64Value(g[3]))
         case (Some(c), Some(d)) => GroupBytes(a, b, c, d, 3)
         case _ => None)
    case _ => None
  }

  /** The first `n` bytes of twenty-four bits. */
  function GroupBytes(a: int, b: int, c: int, d: int, n: nat): Option<seq<byte>>
    requires n <= 3
  {
    var bytes := [a * 4 + b / 16, b % 16 * 16 + c / 4, c % 4 * 64 + d];
    if 0 <= bytes[0] < 256 && 0 <= bytes[1] < 256 && 0 <= bytes[2] < 256 then
      var all: seq<byte> := [bytes[0], bytes[1], bytes[2]];
      Some(all[..n])
    else None
  }

  function ReadBase64(s: string): Option<seq<byte>> {
    if s == [] then Some([])
    else if |s| < 4 then None
    else match (ReadGroup(s[..4]), ReadBase64(s[4..]))
         case (Some(bytes), Some(rest)) => Some(bytes + rest)
         case _ => None
  }

  lemma {:induction false} ThreeBytes(x: byte, y: byte, z: byte)
    ensures var a, b, c, d := x / 4, x % 4 * 16 + y / 16, y % 16 * 4 + z / 64, z % 64;
            && a * 4 + b / 16 == x && b % 16 * 16 + c / 4 == y && c % 4 * 64 + d == z
  {}

  lemma {:induction false} GroupBytesBack(x: byte, y: byte, z: byte, n: nat)
    requires n <= 3
    ensures GroupBytes(x / 4, x % 4 * 16 + y / 16, y % 16 * 4 + z / 64, z % 64, n) == Some([x, y, z][..n])
  {
    ThreeBytes(x, y, z);
  }

  /** What a group of four characters means, given its digits. */
  lemma {:induction false} ReadsGroup(g: string, a: int, b: int, c: int, d: int, n: nat)
    requires |g| == 4 && 1 <= n <= 3 && Base64Value(g[0]) == Some(a) && Base64Value(g[1]) == Some(b)
    requires if n > 1 then Base64Value(g[2]) == Some(c) && g[2] != '=' else g[2] == '=' && c == 0
    requires if n > 2 then Base64Value(g[3]) == Some(d) && g[3] != '=' else g[3] == '=' && d == 0
    ensures ReadGroup(g) == GroupBytes(a, b, c, d, n)
  {}

  lemma {:induction false} ReadGroupBack(b: seq<byte>)
    requires 1 <= |b| <= 3
    ensures ReadGroup(Base64Group(b)) == Some(b)
  {
    var y: byte := if |b| > 1 then b[1] else 0;
    var z: byte := if |b| > 2 then b[2] else 0;
    var c, d := y % 16 * 4 + z / 64, z % 64;
    Base64DigitBack(b[0] / 4);
    Base64DigitBack(b[0] % 4 * 16 + y / 16);
    Base64DigitBack(c);
    Base64DigitBack(d);
    ReadsGroup(Base64Group(b), b[0] / 4, b[0] % 4 * 16 + y / 16, c, d, |b|);
    GroupBytesBack(b[0], y, z, |b|);
    assert b == [b[0], y, z][..|b|];
  }

  /** A decoder recovers every byte string from its base64 text. */
  lemma {:induction false} Base64RoundTrip(b: seq<byte>)
    ensures ReadBase64(Base64(b)) == Some(b)
  {
    if b == [] {
    } else if |b| <= 3 {
      ReadGroupBack(b);
      assert Base64(b)[..4] == Base64(b) && Base64(b)[4..] == [];
      assert b + [] == b;
    } else {
      var s := Base64(b);
      ReadGroupBack(b[..3]);
      Base64RoundTrip(b[3..]);
      assert s[..4] == Base64Group(b[..3]) && s[4..] == Base64(b[3..]);
      assert b[..3] + b[3..] == b;
    }
  }
}
