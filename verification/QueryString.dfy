/** The query-string shim: component encoding as three passes over
    `encodeURIComponent`, and the stringify/parse pair. */
module QueryString {
  import opened Text

  // ---------- Encoding a component ----------

  predicate Alnum(c: char) {
    'a' <= c <= 'z' || 'A' <= c <= 'Z' || '0' <= c <= '9'
  }

  /** The punctuation that `encodeURIComponent` leaves alone and the shim escapes. */
  predicate Extra(c: char) {
    c == '!' || c == '\'' || c == '(' || c == ')' || c == '*'
  }

  predicate Plain(c: char) {
    Alnum(c) || c == '-' || c == '_' || c == '.' || c == '~'
  }

  function EscapeBytes(bytes: seq<byte>): string {
    if bytes == [] then [] else Escape(bytes[0]) + EscapeBytes(bytes[1..])
  }

  function UriChar(c: char): string {
    if Plain(c) || Extra(c) then [c] else EscapeBytes(Utf8Char(c))
  }

  /** `encodeURIComponent`. */
  function EncodeUri(s: string): string {
    if s == [] then [] else UriChar(s[0]) + EncodeUri(s[1..])
  }

  /** `.replace(/%20/g, '+')`. */
  function SpacesToPlus(s: string): string {
    if s == [] then []
    else if |s| >= 3 && s[0] == '%' && s[1] == '2' && s[2] == '0' then "+" + SpacesToPlus(s[3..])
    else [s[0]] + SpacesToPlus(s[1..])
  }

  /** `.replace(/[!'()*]/g, ...)`. */
  function EscapeExtra(s: string): string {
    if s == [] then []
    else (if Extra(s[0]) then Escape(s[0] as int) else [s[0]]) + EscapeExtra(s[1..])
  }

  function EncodeComponent(s: string): string {
    EscapeExtra(SpacesToPlus(EncodeUri(s)))
  }

  /** What the three passes amount to for one character. */
  function EncodedChar(c: char): string {
    if Plain(c) then [c] else if c == ' ' then "+" else EscapeBytes(Utf8Char(c))
  }

  function EncodedChars(s: string): string {
    if s == [] then [] else EncodedChar(s[0]) + EncodedChars(s[1..])
  }

  lemma {:induction false} SpacesToPlusEscape(b: byte, rest: string)
    requires b != 0x20
    ensures SpacesToPlus(Escape(b) + rest) == Escape(b) + SpacesToPlus(rest)
  {
    var s := Escape(b) + rest;
    HexInverse(b / 16);
    HexInverse(b % 16);
    var h, l := HexDigit(b / 16), HexDigit(b % 16);
    assert !(h == '2' && l == '0');
    assert s == ['%'] + ([h] + ([l] + rest));
    DropFirst('%', [h] + ([l] + rest));
    DropFirst(h, [l] + rest);
    DropFirst(l, rest);
    assert SpacesToPlus([l] + rest) == [l] + SpacesToPlus(rest);
    assert SpacesToPlus([h] + ([l] + rest)) == [h] + ([l] + SpacesToPlus(rest));
    assert SpacesToPlus(s) == ['%'] + ([h] + ([l] + SpacesToPlus(rest)));
  }

  lemma {:induction false} SpacesToPlusEscapes(bytes: seq<byte>, rest: string)
    requires forall i :: 0 <= i < |bytes| ==> bytes[i] != 0x20
    ensures SpacesToPlus(EscapeBytes(bytes) + rest) == EscapeBytes(bytes) + SpacesToPlus(rest)
  {
    if bytes == [] {
      assert EscapeBytes(bytes) + rest == rest;
    } else {
      Assoc(Escape(bytes[0]), EscapeBytes(bytes[1..]), rest);
      SpacesToPlusEscape(bytes[0], EscapeBytes(bytes[1..]) + rest);
      SpacesToPlusEscapes(bytes[1..], rest);
      Assoc(Escape(bytes[0]), EscapeBytes(bytes[1..]), SpacesToPlus(rest));
    }
  }

  lemma {:induction false} EscapeExtraConcat(a: string, b: string)
    ensures EscapeExtra(a + b) == EscapeExtra(a) + EscapeExtra(b)
  {
    if a == [] {
      assert a + b == b;
    } else {
      assert (a + b)[1..] == a[1..] + b;
      EscapeExtraConcat(a[1..], b);
    }
  }

  predicate NoExtra(s: string) {
    forall i :: 0 <= i < |s| ==> !Extra(s[i])
  }

  lemma {:induction false} EscapeExtraNothing(s: string)
    requires NoExtra(s)
    ensures EscapeExtra(s) == s
  {
    if s != [] {
      EscapeExtraNothing(s[1..]);
      assert [s[0]] + s[1..] == s;
    }
  }

  lemma {:induction false} EscapesNoExtra(bytes: seq<byte>)
    ensures NoExtra(EscapeBytes(bytes))
  {
    if bytes != [] {
      HexInverse(bytes[0] / 16);
      HexInverse(bytes[0] % 16);
      EscapesNoExtra(bytes[1..]);
    }
  }

  lemma {:induction false} SpacesToPlusChar(c: char, rest: string)
    ensures SpacesToPlus(UriChar(c) + rest) == (if c == ' ' then "+" else UriChar(c)) + SpacesToPlus(rest)
  {
    if Plain(c) || Extra(c) {
      DropFirst(c, rest);
    } else if c == ' ' {
      assert EscapeBytes([0x20]) == Escape(0x20) == "%20";
      assert ("%20" + rest)[3..] == rest;
    } else {
      SpacesToPlusEscapes(Utf8Char(c), rest);
    }
  }

  lemma {:induction false} EscapeExtraChar(c: char)
    ensures EscapeExtra(if c == ' ' then "+" else UriChar(c)) == EncodedChar(c)
  {
    if Extra(c) {
      assert EscapeExtra([c]) == Escape(c as int) + EscapeExtra([]);
      assert Utf8Char(c) == [c as int];
      assert EscapeBytes([c as int]) == Escape(c as int);
    } else if Plain(c) {
      EscapeExtraNothing([c]);
    } else if c == ' ' {
      EscapeExtraNothing("+");
    } else {
      EscapesNoExtra(Utf8Char(c));
      EscapeExtraNothing(EscapeBytes(Utf8Char(c)));
    }
  }

  /** The three passes encode character by character. */
  lemma {:induction false} EncodeComponentChars(s: string)
    ensures EncodeComponent(s) == EncodedChars(s)
  {
    if s != [] {
      var c := s[0];
      var piece := if c == ' ' then "+" else UriChar(c);
      EncodeComponentChars(s[1..]);
      SpacesToPlusChar(c, EncodeUri(s[1..]));
      EscapeExtraConcat(piece, SpacesToPlus(EncodeUri(s[1..])));
      EscapeExtraChar(c);
    }
  }

  // ---------- Decoding a component ----------

  /** The byte of a `%XX` escape at the front of `s`. */
  function ReadEscape(s: string): Option<int> {
    if |s| < 3 || s[0] != '%' then None
    else match (HexValue(s[1]), HexValue(s[2]))
         case (Some(a), Some(b)) => Some(16 * a + b)
         case _ => None
  }

  /** `n` escapes at the front of `s`. */
  function ReadEscapes(s: string, n: nat): Option<seq<int>> {
    if n == 0 then Some([])
    else match ReadEscape(s)
         case None => None
         case Some(b) =>
           match ReadEscapes(s[3..], n - 1)
           case None => None
           case Some(rest) => Some([b] + rest)
  }

  /** How many bytes a character with this first byte has; 0 if none does. */
  function Utf8Length(first: int): nat {
    if 0 <= first < 0x80 then 1
    else if 0xC0 <= first < 0xE0 then 2
    else if 0xE0 <= first < 0xF0 then 3
    else if 0xF0 <= first < 0xF8 then 4
    else 0
  }

  predicate Continuation(b: int) {
    0x80 <= b < 0xC0
  }

  function CharOf(n: int, least: int): Option<char> {
    if n < least || 0xD800 <= n < 0xE000 || n > 0x10FFFF || n < 0 then None else Some(n as char)
  }

  /** The character that exactly these bytes encode, in shortest form. */
  function DecodeUtf8(b: seq<int>): Option<char> {
    if |b| == 1 then CharOf(b[0], 0)
    else if |b| == 2 && Continuation(b[1]) then CharOf((b[0] - 0xC0) * 64 + (b[1] - 0x80), 0x80)
    else if |b| == 3 && Continuation(b[1]) && Continuation(b[2]) then
      CharOf((b[0] - 0xE0) * 4096 + (b[1] - 0x80) * 64 + (b[2] - 0x80), 0x800)
    else if |b| == 4 && Continuation(b[1]) && Continuation(b[2]) && Continuation(b[3]) then
      CharOf((b[0] - 0xF0) * 262144 + (b[1] - 0x80) * 4096 + (b[2] - 0x80) * 64 + (b[3] - 0x80), 0x10000)
    else None
  }

  /** One escaped character and the length of its escapes. */
  function ReadEscapedChar(s: string): Option<(char, nat)> {
    match ReadEscape(s)
    case None => None
    case Some(first) =>
      var n := Utf8Length(first);
      if n == 0 then None
      else match ReadEscapes(s, n)
           case None => None
           case Some(bytes) =>
             match DecodeUtf8(bytes)
             case Some(c) => Some((c, 3 * n))
             case None => None
  }

  /** `decodeURIComponent`; `None` is the URIError it throws. */
  function DecodeUri(s: string): Option<string>
    decreases |s|
  {
    if s == [] then Some([])
    else if s[0] != '%' then ConsChar(s[0], DecodeUri(s[1..]))
    else match ReadEscapedChar(s)
         case None => None
         case Some((c, n)) => if 1 <= n <= |s| then ConsChar(c, DecodeUri(s[n..])) else None
  }

  function ConsChar(c: char, rest: Option<string>): Option<string> {
    match rest
    case Some(s) => Some([c] + s)
    case None => None
  }

  function PlusToSpace(s: string): string {
    if s == [] then [] else [if s[0] == '+' then ' ' else s[0]] + PlusToSpace(s[1..])
  }

  /** `decodeComponent`: text that does not decode is returned as it is. */
  function DecodeComponent(s: string): string {
    match DecodeUri(PlusToSpace(s))
    case Some(t) => t
    case None => s
  }

  lemma {:induction false} ReadEscapeBack(b: byte, rest: string)
    ensures ReadEscape(Escape(b) + rest) == Some(b) && (Escape(b) + rest)[3..] == rest
  {
    HexInverse(b / 16);
    HexInverse(b % 16);
  }

  lemma {:induction false} ReadEscapesBack(bytes: seq<byte>, rest: string)
    ensures ReadEscapes(EscapeBytes(bytes) + rest, |bytes|) == Some(bytes)
    ensures |EscapeBytes(bytes)| == 3 * |bytes|
  {
    if bytes != [] {
      Assoc(Escape(bytes[0]), EscapeBytes(bytes[1..]), rest);
      ReadEscapeBack(bytes[0], EscapeBytes(bytes[1..]) + rest);
      ReadEscapesBack(bytes[1..], rest);
      assert [bytes[0]] + bytes[1..] == bytes;
    }
  }

  /** A number is the sum of its base-64 digits. */
  lemma {:induction false} Base64Digits(n: int)
    requires n >= 0
    ensures n == n / 64 * 64 + n % 64
    ensures n / 64 == n / 4096 * 64 + n / 64 % 64
    ensures n / 4096 == n / 262144 * 64 + n / 4096 % 64
  {
    assert n / 64 / 64 == n / 4096;
    assert n / 4096 / 64 == n / 262144;
  }

  /** Decoding UTF-8 undoes encoding it, for every character. */
  lemma {:induction false} DecodeUtf8Back(c: char)
    ensures DecodeUtf8(Utf8Char(c)) == Some(c)
    ensures Utf8Length(Utf8Char(c)[0]) == |Utf8Char(c)|
  {
    var n := c as int;
    Base64Digits(n);
    if n >= 0x10000 {
      assert n == n / 262144 * 262144 + n / 4096 % 64 * 4096 + n / 64 % 64 * 64 + n % 64;
    } else if n >= 0x800 {
      assert n == n / 4096 * 4096 + n / 64 % 64 * 64 + n % 64;
    }
  }

  lemma {:induction false} ReadEscapedBack(c: char, rest: string)
    ensures var e := EscapeBytes(Utf8Char(c));
            ReadEscapedChar(e + rest) == Some((c, |e|)) && (e + rest)[|e|..] == rest && e[0] == '%'
  {
    var bytes := Utf8Char(c);
    ReadEscapesBack(bytes, rest);
    Assoc(Escape(bytes[0]), EscapeBytes(bytes[1..]), rest);
    ReadEscapeBack(bytes[0], EscapeBytes(bytes[1..]) + rest);
    DecodeUtf8Back(c);
  }

  lemma {:induction false} PlusToSpaceConcat(a: string, b: string)
    ensures PlusToSpace(a + b) == PlusToSpace(a) + PlusToSpace(b)
  {
    if a == [] {
      assert a + b == b;
    } else {
      assert (a + b)[1..] == a[1..] + b;
      PlusToSpaceConcat(a[1..], b);
    }
  }

  lemma {:induction false} PlusToSpaceNothing(s: string)
    requires '+' !in s
    ensures PlusToSpace(s) == s
  {
    if s != [] {
      PlusToSpaceNothing(s[1..]);
      assert [s[0]] + s[1..] == s;
    }
  }

  lemma {:induction false} EscapesNoSeparators(bytes: seq<byte>)
    ensures '+' !in EscapeBytes(bytes) && '&' !in EscapeBytes(bytes) && '=' !in EscapeBytes(bytes)
  {
    if bytes != [] {
      HexInverse(bytes[0] / 16);
      HexInverse(bytes[0] % 16);
      EscapesNoSeparators(bytes[1..]);
    }
  }

  lemma {:induction false} DecodeEncodedChar(c: char, rest: string)
    ensures DecodeUri(PlusToSpace(EncodedChar(c)) + rest) == ConsChar(c, DecodeUri(rest))
    ensures '&' !in EncodedChar(c) && '=' !in EncodedChar(c)
  {
    if Plain(c) {
      PlusToSpaceNothing([c]);
      DropFirst(c, rest);
    } else if c == ' ' {
      assert PlusToSpace("+") == " ";
      DropFirst(' ', rest);
    } else {
      var e := EscapeBytes(Utf8Char(c));
      EscapesNoSeparators(Utf8Char(c));
      PlusToSpaceNothing(e);
      ReadEscapedBack(c, rest);
    }
  }

  lemma {:induction false} DecodeEncodedChars(s: string)
    ensures DecodeUri(PlusToSpace(EncodedChars(s))) == Some(s)
    ensures '&' !in EncodedChars(s) && '=' !in EncodedChars(s)
  {
    if s != [] {
      DecodeEncodedChars(s[1..]);
      PlusToSpaceConcat(EncodedChar(s[0]), EncodedChars(s[1..]));
      DecodeEncodedChar(s[0], PlusToSpace(EncodedChars(s[1..])));
      assert [s[0]] + s[1..] == s;
    }
  }

  /** Decoding an encoded component gives it back, for every text; the encoded
      form never contains a separator. */
  lemma ComponentRoundTrip(s: string)
    ensures DecodeComponent(EncodeComponent(s)) == s
    ensures '&' !in EncodeComponent(s) && '=' !in EncodeComponent(s)
  {
    EncodeComponentChars(s);
    DecodeEncodedChars(s);
  }

  // ---------- stringify and parse ----------

  /** A value of the object handed to `stringify`. */
  datatype Value = Nothing | One(text: string) | Many(texts: seq<string>)

  function Pair(key: string, text: string): string {
    EncodeComponent(key) + "=" + EncodeComponent(text)
  }

  function Pairs(key: string, texts: seq<string>): seq<string> {
    if texts == [] then [] else [Pair(key, texts[0])] + Pairs(key, texts[1..])
  }

  function PiecesOf(key: string, value: Value): seq<string> {
    match value
    case Nothing => [EncodeComponent(key)]
    case One(text) => [Pair(key, text)]
    case Many(texts) => Pairs(key, texts)
  }

  /** The pieces for the keys of `m` in the order in which they are visited. */
  function Pieces(m: map<string, Value>, keys: seq<string>): seq<string>
    requires forall k :: k in keys ==> k in m
  {
    if keys == [] then [] else PiecesOf(keys[0], m[keys[0]]) + Pieces(m, keys[1..])
  }

  method Stringify(m: map<string, Value>, keys: seq<string>) returns (text: string)
    requires forall k :: k in keys ==> k in m
    ensures text == Join(Pieces(m, keys), '&')
  {
    var out: seq<string> := [];
    for i := 0 to |keys|
      invariant out + Pieces(m, keys[i..]) == Pieces(m, keys)
    {
      assert keys[i..][1..] == keys[i + 1..];
      var key, value := keys[i], m[keys[i]];
      Assoc(out, PiecesOf(key, value), Pieces(m, keys[i + 1..]));
      match value {
        case Nothing => out := out + [EncodeComponent(key)];
        case One(t) => out := out + [Pair(key, t)];
        case Many(texts) =>
          ghost var before := out;
          for j := 0 to |texts|
            invariant out + Pairs(key, texts[j..]) == before + Pairs(key, texts)
          {
            assert texts[j..][1..] == texts[j + 1..];
            Assoc(out, [Pair(key, texts[j])], Pairs(key, texts[j + 1..]));
            out := out + [Pair(key, texts[j])];
          }
          assert out == before + Pairs(key, texts);
      }
    }
    assert out == Pieces(m, keys);
    text := Join(out, '&');
  }

  /** A repeated key collects its values in a list. */
  function Collect(out: map<string, Value>, key: string, text: string): map<string, Value> {
    if key !in out then out[key := One(text)]
    else match out[key]
         case Many(texts) => out[key := Many(texts + [text])]
         case One(first) => out[key := Many([first, text])]
         case Nothing => out[key := One(text)]  // never stored, see ParsedValues
  }

  /** The key and text of one piece; an empty piece is skipped. */
  function ReadPair(piece: string): Option<(string, string)> {
    if piece == [] then None
    else match IndexOf(piece, '=')
         case Some(i) => Some((DecodeComponent(piece[..i]), DecodeComponent(piece[i + 1..])))
         case None => Some((DecodeComponent(piece), ""))
  }

  function ReadPairs(pieces: seq<string>): seq<(string, string)> {
    if pieces == [] then []
    else match ReadPair(pieces[0])
         case Some(pair) => [pair] + ReadPairs(pieces[1..])
         case None => ReadPairs(pieces[1..])
  }

  function CollectAll(out: map<string, Value>, pairs: seq<(string, string)>): map<string, Value>
    decreases pairs
  {
    if pairs == [] then out else CollectAll(Collect(out, pairs[0].0, pairs[0].1), pairs[1..])
  }

  function Parse(text: string): map<string, Value> {
    if text == [] then map[] else CollectAll(map[], ReadPairs(Split(text, '&')))
  }

  method ParseQuery(text: string) returns (out: map<string, Value>)
    ensures out == Parse(text)
  {
    out := map[];
    if text == [] {
      return;
    }
    var parts := Split(text, '&');
    ghost var goal := CollectAll(map[], ReadPairs(parts));
    for i := 0 to |parts|
      invariant CollectAll(out, ReadPairs(parts[i..])) == goal
    {
      NextPiece(out, parts, i);
      var pair := ReadPair(parts[i]);
      if pair.Some? {
        out := Collect(out, pair.value.0, pair.value.1);
      }
    }
  }

  lemma {:induction false} NextPiece(out: map<string, Value>, parts: seq<string>, i: nat)
    requires i < |parts|
    ensures CollectAll(out, ReadPairs(parts[i..]))
         == match ReadPair(parts[i])
            case Some(pair) => CollectAll(Collect(out, pair.0, pair.1), ReadPairs(parts[i + 1..]))
            case None => CollectAll(out, ReadPairs(parts[i + 1..]))
  {
    assert parts[i..][1..] == parts[i + 1..];
    if ReadPair(parts[i]).Some? {
      DropFirst(ReadPair(parts[i]).value, ReadPairs(parts[i + 1..]));
    }
  }

  // ---------- Reading back what was written ----------

  /** The values that a query string can carry: a text, or a list of at least two. */
  predicate Representable(v: Value) {
    v.One? || (v.Many? && |v.texts| >= 2)
  }

  function Texts(v: Value): seq<string> {
    match v
    case Nothing => []
    case One(text) => [text]
    case Many(texts) => texts
  }

  function Tagged(key: string, texts: seq<string>): seq<(string, string)> {
    if texts == [] then [] else [(key, texts[0])] + Tagged(key, texts[1..])
  }

  /** The key and text pairs of an object, in the order of `keys`. */
  function Flat(m: map<string, Value>, keys: seq<string>): seq<(string, string)>
    requires forall k :: k in keys ==> k in m
  {
    if keys == [] then [] else Tagged(keys[0], Texts(m[keys[0]])) + Flat(m, keys[1..])
  }

  lemma {:induction false} ReadPairBack(key: string, text: string)
    ensures ReadPair(Pair(key, text)) == Some((key, text)) && '&' !in Pair(key, text)
  {
    var k, t := EncodeComponent(key), EncodeComponent(text);
    var piece := Pair(key, text);
    ComponentRoundTrip(key);
    ComponentRoundTrip(text);
    assert piece[..|k|] == k && piece[|k| + 1..] == t;
    IndexOfIs(piece, '=', |k|);
  }

  lemma {:induction false} ReadPairsConcat(a: seq<string>, b: seq<string>)
    ensures ReadPairs(a + b) == ReadPairs(a) + ReadPairs(b)
  {
    if a == [] {
      assert a + b == b;
    } else {
      assert (a + b)[1..] == a[1..] + b;
      ReadPairsConcat(a[1..], b);
    }
  }

  predicate NoSeparators(pieces: seq<string>) {
    forall i :: 0 <= i < |pieces| ==> '&' !in pieces[i]
  }

  lemma {:induction false} ReadPairsBack(key: string, texts: seq<string>)
    ensures ReadPairs(Pairs(key, texts)) == Tagged(key, texts) && NoSeparators(Pairs(key, texts))
  {
    if texts != [] {
      ReadPairBack(key, texts[0]);
      ReadPairsBack(key, texts[1..]);
      DropFirst(Pair(key, texts[0]), Pairs(key, texts[1..]));
    }
  }

  lemma {:induction false} ReadValueBack(key: string, value: Value)
    requires Representable(value)
    ensures ReadPairs(PiecesOf(key, value)) == Tagged(key, Texts(value))
    ensures NoSeparators(PiecesOf(key, value)) && PiecesOf(key, value) != []
  {
    ReadPairsBack(key, Texts(value));
    if value.One? {
      assert Pairs(key, [value.text]) == [Pair(key, value.text)];
    }
  }

  lemma {:induction false} ReadPiecesBack(m: map<string, Value>, keys: seq<string>)
    requires forall k :: k in keys ==> k in m && Representable(m[k])
    ensures ReadPairs(Pieces(m, keys)) == Flat(m, keys)
    ensures NoSeparators(Pieces(m, keys)) && (keys != [] ==> Pieces(m, keys) != [])
  {
    if keys != [] {
      ReadValueBack(keys[0], m[keys[0]]);
      ReadPiecesBack(m, keys[1..]);
      ReadPairsConcat(PiecesOf(keys[0], m[keys[0]]), Pieces(m, keys[1..]));
    }
  }

  // ---------- Collecting the pairs of an object ----------

  /** The value that a list of texts for one key is read as. */
  function Grouped(texts: seq<string>): Value
    requires texts != []
  {
    if |texts| == 1 then One(texts[0]) else Many(texts)
  }

  lemma {:induction false} CollectGroups(out: map<string, Value>, key: string, done: seq<string>, text: string)
    requires key in out && done != [] && out[key] == Grouped(done)
    ensures Collect(out, key, text) == out[key := Grouped(done + [text])]
  {
    if |done| == 1 {
      assert done + [text] == [done[0], text];
    }
  }

  /** Repeated pairs of one key add up to its list. */
  lemma {:induction false} CollectTagged(out: map<string, Value>, key: string, done: seq<string>,
                                         texts: seq<string>, rest: seq<(string, string)>)
    requires key in out && done != [] && out[key] == Grouped(done)
    ensures CollectAll(out, Tagged(key, texts) + rest) == CollectAll(out[key := Grouped(done + texts)], rest)
    decreases texts
  {
    if texts == [] {
      assert Tagged(key, texts) + rest == rest && done + texts == done;
      assert out[key := Grouped(done)] == out;
    } else {
      var out' := out[key := Grouped(done + [texts[0]])];
      var pairs := Tagged(key, texts) + rest;
      Assoc([(key, texts[0])], Tagged(key, texts[1..]), rest);
      DropFirst((key, texts[0]), Tagged(key, texts[1..]) + rest);
      CollectGroups(out, key, done, texts[0]);
      CollectTagged(out', key, done + [texts[0]], texts[1..], rest);
      ShiftFirst(done, texts);
      UpdateTwice(out, key, Grouped(done + [texts[0]]), Grouped(done + texts));
    }
  }

  lemma UpdateTwice<K, V>(m: map<K, V>, k: K, v: V, w: V)
    ensures m[k := v][k := w] == m[k := w]
  {}

  lemma {:induction false} CollectValue(out: map<string, Value>, key: string, value: Value, rest: seq<(string, string)>)
    requires key !in out && Representable(value)
    ensures CollectAll(out, Tagged(key, Texts(value)) + rest) == CollectAll(out[key := value], rest)
  {
    var texts := Texts(value);
    var out' := out[key := One(texts[0])];
    Assoc([(key, texts[0])], Tagged(key, texts[1..]), rest);
    DropFirst((key, texts[0]), Tagged(key, texts[1..]) + rest);
    CollectTagged(out', key, [texts[0]], texts[1..], rest);
    ShiftFirst([], texts);
    assert [] + [texts[0]] == [texts[0]] && [] + texts == texts;
    UpdateTwice(out, key, One(texts[0]), value);
  }

  lemma {:induction false} RestrictStep(out: map<string, Value>, m: map<string, Value>, keys: seq<string>)
    requires keys != [] && forall k :: k in keys ==> k in m
    ensures out[keys[0] := m[keys[0]]] + Restrict(m, keys[1..]) == out + Restrict(m, keys)
  {
    assert forall k :: k in keys <==> k == keys[0] || k in keys[1..];
  }

  lemma {:induction false} CollectFlat(out: map<string, Value>, m: map<string, Value>, keys: seq<string>)
    requires forall k :: k in keys ==> k in m && k !in out && Representable(m[k])
    requires Distinct(keys)
    ensures CollectAll(out, Flat(m, keys)) == out + Restrict(m, keys)
    decreases keys
  {
    if keys == [] {
      assert out + Restrict(m, keys) == out;
    } else {
      CollectValue(out, keys[0], m[keys[0]], Flat(m, keys[1..]));
      RestrictStep(out, m, keys);
      forall k | k in keys[1..]
        ensures k != keys[0]
      {
        var i :| 0 <= i < |keys[1..]| && keys[1..][i] == k;
        assert keys[i + 1] == k;
      }
      CollectFlat(out[keys[0] := m[keys[0]]], m, keys[1..]);
    }
  }

  // ---------- Round trip ----------

  /** `keys` visits every key of `m` exactly once. */
  ghost predicate Visits(keys: seq<string>, m: map<string, Value>) {
    Distinct(keys) && forall k :: k in keys <==> k in m
  }

  predicate AllRepresentable(m: map<string, Value>) {
    forall k :: k in m ==> Representable(m[k])
  }

  lemma {:induction false} JoinNonEmpty(m: map<string, Value>, keys: seq<string>)
    requires keys != [] && forall k :: k in keys ==> k in m && Representable(m[k])
    ensures Join(Pieces(m, keys), '&') != []
  {
    var value := m[keys[0]];
    var pieces := Pieces(m, keys);
    var text := Texts(value)[0];
    assert pieces[0] == PiecesOf(keys[0], value)[0] == Pair(keys[0], text);
    assert |Pair(keys[0], text)| >= 1;
  }

  lemma {:induction false} ParseJoined(pieces: seq<string>)
    requires pieces != [] && NoSeparators(pieces) && Join(pieces, '&') != []
    ensures Parse(Join(pieces, '&')) == CollectAll(map[], ReadPairs(pieces))
  {
    SplitJoin(pieces, '&');
  }

  lemma {:induction false} RestrictAll(m: map<string, Value>, keys: seq<string>)
    requires Visits(keys, m)
    ensures map[] + Restrict(m, keys) == m
  {}

  lemma {:induction false} RepresentableRoundTrip(m: map<string, Value>, keys: seq<string>)
    requires Visits(keys, m) && AllRepresentable(m)
    ensures Parse(Join(Pieces(m, keys), '&')) == m
  {
    if keys == [] {
      assert m == map[];
    } else {
      JoinNonEmpty(m, keys);
      ReadPiecesBack(m, keys);
      ParseJoined(Pieces(m, keys));
      CollectFlat(map[], m, keys);
      RestrictAll(m, keys);
    }
  }

  /** Parsing only ever stores texts and lists of at least two. */
  lemma {:induction false} ParsedValues(out: map<string, Value>, pairs: seq<(string, string)>)
    requires AllRepresentable(out)
    ensures AllRepresentable(CollectAll(out, pairs))
    decreases pairs
  {
    if pairs != [] {
      ParsedValues(Collect(out, pairs[0].0, pairs[0].1), pairs[1..]);
    }
  }

  /** `parse(stringify(m))` gives `m` back exactly when every value is a text or
      a list of at least two texts, in whatever order the keys are visited. */
  lemma {:induction false} RoundTripExact(m: map<string, Value>, keys: seq<string>)
    requires Visits(keys, m)
    ensures Parse(Join(Pieces(m, keys), '&')) == m <==> AllRepresentable(m)
  {
    if AllRepresentable(m) {
      RepresentableRoundTrip(m, keys);
    } else {
      ParsedValues(map[], ReadPairs(Split(Join(Pieces(m, keys), '&'), '&')));
    }
  }
}
