/** JSON values, the compact printer with sorted keys, and a reference reader
    that recovers every printed value. */
module Json {
  import opened Text

  datatype Json =
    | Null
    | Bool(b: bool)
    | Int(n: int)
    | Str(s: string)
    | Arr(items: seq<Json>)
    | Obj(members: map<string, Json>)

  // ---------- Sorted keys ----------

  predicate Leq(a: string, b: string) {
    a == [] || (b != [] && (a[0] < b[0] || (a[0] == b[0] && Leq(a[1..], b[1..]))))
  }

  lemma {:induction false} LeqTotal(a: string, b: string)
    ensures Leq(a, b) || Leq(b, a)
  {
    if a != [] && b != [] && a[0] == b[0] {
      LeqTotal(a[1..], b[1..]);
    }
  }

  lemma {:induction false} LeqAntisymmetric(a: string, b: string)
    requires Leq(a, b) && Leq(b, a)
    ensures a == b
  {
    if a != [] && b != [] {
      LeqAntisymmetric(a[1..], b[1..]);
      assert a == [a[0]] + a[1..] && b == [b[0]] + b[1..];
    }
  }

  lemma {:induction false} LeqTransitive(a: string, b: string, c: string)
    requires Leq(a, b) && Leq(b, c)
    ensures Leq(a, c)
  {
    if a != [] && a[0] == b[0] == c[0] {
      LeqTransitive(a[1..], b[1..], c[1..]);
    }
  }

  predicate IsLeast(k: string, keys: set<string>) {
    k in keys && forall x :: x in keys ==> Leq(k, x)
  }

  lemma {:induction false} LeastExists(keys: set<string>)
    requires keys != {}
    ensures exists k :: IsLeast(k, keys)
  {
    var k :| k in keys;
    var rest := keys - {k};
    LeqTotal(k, k);
    if rest == {} {
      assert keys == {k};
      assert IsLeast(k, keys);
    } else {
      LeastExists(rest);
      var m :| IsLeast(m, rest);
      LeqTotal(k, m);
      if Leq(k, m) {
        forall x | x in keys ensures Leq(k, x) {
          if x != k {
            LeqTransitive(k, m, x);
          }
        }
        assert IsLeast(k, keys);
      } else {
        assert IsLeast(m, keys);
      }
    }
  }

  function Least(keys: set<string>): (k: string)
    requires keys != {}
    ensures IsLeast(k, keys)
  {
    LeastExists(keys);
    LeastUnique(keys);
    var k :| k in keys && IsLeast(k, keys);
    k
  }

  lemma {:induction false} LeastUnique(keys: set<string>)
    ensures forall a, b :: IsLeast(a, keys) && IsLeast(b, keys) ==> a == b
  {
    forall a, b | IsLeast(a, keys) && IsLeast(b, keys)
      ensures a == b
    {
      LeqAntisymmetric(a, b);
    }
  }

  /** All keys, each once, in ascending order. */
  function SortedKeys(keys: set<string>): (r: seq<string>)
    ensures forall k :: k in r <==> k in keys
    decreases keys
  {
    if keys == {} then [] else [Least(keys)] + SortedKeys(keys - {Least(keys)})
  }

  predicate Ascending(r: seq<string>) {
    forall i, j :: 0 <= i < j < |r| ==> Leq(r[i], r[j]) && r[i] != r[j]
  }

  lemma {:induction false} SortedKeysAscending(keys: set<string>)
    ensures Ascending(SortedKeys(keys))
    decreases keys
  {
    if keys != {} {
      var least := Least(keys);
      var rest := SortedKeys(keys - {least});
      SortedKeysAscending(keys - {least});
      forall j | 0 <= j < |rest|
        ensures Leq(least, rest[j]) && least != rest[j]
      {
        assert rest[j] in keys - {least};
      }
      assert Ascending([least] + rest);
    }
  }

  // ---------- The printer ----------

  function EncodeInt(n: int): string {
    if n < 0 then "-" + Decimal(-n) else Decimal(n)
  }

  function EscapeChar(c: char): string {
    if c == '"' then "\\\""
    else if c == '\\' then "\\\\"
    else if c == '\n' then "\\n"
    else if c == '\r' then "\\r"
    else if c == '\t' then "\\t"
    else if c as int == 8 then "\\b"
    else if c as int == 12 then "\\f"
    else if c as int < 0x20 then "\\u00" + [HexDigit(c as int / 16), HexDigit(c as int % 16)]
    else [c]
  }

  function EscapeChars(s: string): string {
    if s == [] then [] else EscapeChar(s[0]) + EscapeChars(s[1..])
  }

  function EncodeString(s: string): string {
    "\"" + EscapeChars(s) + "\""
  }

  function Encode(v: Json): string
    decreases v, 0
  {
    match v
    case Null => "null"
    case Bool(b) => if b then "true" else "false"
    case Int(n) => EncodeInt(n)
    case Str(s) => EncodeString(s)
    case Arr(items) => "[" + EncodeItems(items) + "]"
    case Obj(members) => "{" + EncodeMembers(v, SortedKeys(members.Keys)) + "}"
  }

  function EncodeItems(items: seq<Json>): string
    decreases items
  {
    if items == [] then []
    else if |items| == 1 then Encode(items[0])
    else Encode(items[0]) + "," + EncodeItems(items[1..])
  }

  function EncodeMember(v: Json, key: string): string
    requires v.Obj? && key in v.members
    decreases v, 0, 0
  {
    EncodeString(key) + ":" + Encode(v.members[key])
  }

  function EncodeMembers(v: Json, keys: seq<string>): string
    requires v.Obj? && forall k :: k in keys ==> k in v.members
    decreases v, 0, |keys|
  {
    if keys == [] then []
    else if |keys| == 1 then EncodeMember(v, keys[0])
    else EncodeMember(v, keys[0]) + "," + EncodeMembers(v, keys[1..])
  }

  /** One character for most, a backslash and a letter for the seven that have
      one, six characters for the other control characters. */
  lemma {:induction false} EscapeLength(c: char)
    ensures |EscapeChar(c)| ==
            if c == '"' || c == '\\' || c == '\n' || c == '\r' || c == '\t' || c as int == 8 || c as int == 12 then 2
            else if c as int < 0x20 then 6 else 1
  {}

  // ---------- The printer as the program writes it ----------

  method WriteString(out: string, s: string) returns (r: string)
    ensures r == out + EncodeString(s)
  {
    r := out + "\"";
    ghost var begun := r;
    for i := 0 to |s|
      invariant r + EscapeChars(s[i..]) == begun + EscapeChars(s)
    {
      assert s[i..][1..] == s[i + 1..];
      Assoc(r, EscapeChar(s[i]), EscapeChars(s[i + 1..]));
      r := r + EscapeChar(s[i]);
    }
    assert r == begun + EscapeChars(s);
    Assoc(out, "\"", EscapeChars(s));
    Assoc(out, "\"" + EscapeChars(s), "\"");
    r := r + "\"";
  }

  method WriteValue(out: string, v: Json) returns (r: string)
    ensures r == out + Encode(v)
    decreases v, 1
  {
    match v {
      case Null => r := out + "null";
      case Bool(b) => r := out + (if b then "true" else "false");
      case Int(n) => r := out + EncodeInt(n);
      case Str(s) => r := WriteString(out, s);
      case Arr(items) => r := WriteItems(out, items);
      case Obj(members) => r := WriteMembers(out, v);
    }
  }

  method WriteItems(out: string, items: seq<Json>) returns (r: string)
    ensures r == out + ("[" + EncodeItems(items) + "]")
    decreases items
  {
    r := out + "[";
    ghost var begun := r;
    for i := 0 to |items|
      invariant r == begun + EncodeItems(items[..i])
    {
      AppendItem(begun, items[..i], items[i]);
      assert items[..i + 1] == items[..i] + [items[i]];
      if i > 0 {
        r := r + ",";
      }
      r := WriteValue(r, items[i]);
    }
    assert items[..|items|] == items;
    r := r + "]";
  }

  method WriteMembers(out: string, v: Json) returns (r: string)
    requires v.Obj?
    ensures r == out + ("{" + EncodeMembers(v, SortedKeys(v.members.Keys)) + "}")
    decreases v, 0, 2
  {
    var keys := SortedKeys(v.members.Keys);
    r := out + "{";
    r := WriteEachMember(r, v, keys);
    r := r + "}";
  }

  method WriteEachMember(out: string, v: Json, keys: seq<string>) returns (r: string)
    requires v.Obj? && forall k :: k in keys ==> k in v.members
    ensures r == out + EncodeMembers(v, keys)
    decreases v, 0, 1
  {
    r := out;
    for i := 0 to |keys|
      invariant r == out + EncodeMembers(v, keys[..i])
    {
      AppendMember(out, v, keys[..i], keys[i]);
      assert keys[..i + 1] == keys[..i] + [keys[i]];
      if i > 0 {
        r := r + ",";
      }
      r := WriteMember(r, v, keys[i]);
    }
    assert keys[..|keys|] == keys;
  }

  method WriteMember(out: string, v: Json, key: string) returns (r: string)
    requires v.Obj? && key in v.members
    ensures r == out + EncodeMember(v, key)
    decreases v, 0, 0
  {
    r := WriteString(out, key);
    r := r + ":";
    ghost var name := r;
    r := WriteValue(r, v.members[key]);
    Assoc(out, EncodeString(key), ":");
    Assoc(out, EncodeString(key) + ":", Encode(v.members[key]));
  }

  lemma {:induction false} AppendItem(begun: string, items: seq<Json>, last: Json)
    ensures begun + EncodeItems(items + [last])
         == begun + EncodeItems(items) + (if items == [] then [] else ",") + Encode(last)
  {
    ItemsSnoc(items, last);
    if items != [] {
      Assoc(begun, EncodeItems(items), ",");
      Assoc(begun, EncodeItems(items) + ",", Encode(last));
    }
  }

  lemma {:induction false} AppendMember(begun: string, v: Json, keys: seq<string>, last: string)
    requires v.Obj? && last in v.members && forall k :: k in keys ==> k in v.members
    ensures begun + EncodeMembers(v, keys + [last])
         == begun + EncodeMembers(v, keys) + (if keys == [] then [] else ",") + EncodeMember(v, last)
  {
    MembersSnoc(v, keys, last);
    if keys != [] {
      Assoc(begun, EncodeMembers(v, keys), ",");
      Assoc(begun, EncodeMembers(v, keys) + ",", EncodeMember(v, last));
    }
  }

  lemma {:induction false} ItemsSnoc(items: seq<Json>, last: Json)
    ensures EncodeItems(items + [last])
         == if items == [] then Encode(last) else EncodeItems(items) + "," + Encode(last)
  {
    if |items| > 0 {
      assert (items + [last])[1..] == items[1..] + [last];
      ItemsSnoc(items[1..], last);
    }
  }

  lemma {:induction false} MembersSnoc(v: Json, keys: seq<string>, last: string)
    requires v.Obj? && last in v.members && forall k :: k in keys ==> k in v.members
    ensures EncodeMembers(v, keys + [last])
         == if keys == [] then EncodeMember(v, last) else EncodeMembers(v, keys) + "," + EncodeMember(v, last)
  {
    if |keys| > 0 {
      assert (keys + [last])[1..] == keys[1..] + [last];
      MembersSnoc(v, keys[1..], last);
    }
  }

  // ---------- A reference reader ----------

  predicate StartsWith(s: string, prefix: string) {
    |prefix| <= |s| && s[..|prefix|] == prefix
  }

  /** Four hexadecimal digits that name a character of the basic plane. */
  function ReadHex4(s: string): Option<char>
    requires |s| >= 4
  {
    match (HexValue(s[0]), HexValue(s[1]), HexValue(s[2]), HexValue(s[3]))
    case (Some(a), Some(b), Some(c), Some(d)) =>
      var n := 4096 * a + 256 * b + 16 * c + d;
      if 0 <= n < 0xD800 || 0xE000 <= n < 0x10000 then Some(n as char) else None
    case _ => None
  }

  /** The meaning of the character after a backslash (section 7 of RFC 8259). */
  function SimpleEscape(c: char): Option<char> {
    if c == '"' || c == '\\' || c == '/' then Some(c)
    else if c == 'b' then Some(8 as char)
    else if c == 'f' then Some(12 as char)
    else if c == 'n' then Some('\n')
    else if c == 'r' then Some('\r')
    else if c == 't' then Some('\t')
    else None
  }

  /** One possibly escaped character. */
  function ReadChar(s: string): (r: Option<(char, string)>)
    ensures r.Some? ==> |r.value.1| < |s|
  {
    if s == [] || s[0] == '"' || s[0] as int < 0x20 then None
    else if s[0] != '\\' then Some((s[0], s[1..]))
    else if |s| < 2 then None
    else if s[1] == 'u' then
      if |s| < 6 then None
      else match ReadHex4(s[2..6])
           case Some(c) => Some((c, s[6..]))
           case None => None
    else match SimpleEscape(s[1])
         case Some(c) => Some((c, s[2..]))
         case None => None
  }

  /** The characters up to the closing quote. */
  function ReadChars(s: string): (r: Option<(string, string)>)
    ensures r.Some? ==> |r.value.1| < |s|
    decreases |s|
  {
    if s != [] && s[0] == '"' then Some(([], s[1..]))
    else match ReadChar(s)
         case None => None
         case Some((c, rest)) =>
           match ReadChars(rest)
           case None => None
           case Some((text, rest')) => Some(([c] + text, rest'))
  }

  function ReadNumber(s: string): (r: Option<(int, string)>)
    ensures r.Some? ==> |r.value.1| < |s|
  {
    var n := DigitSpan(s);
    if n == 0 || (n > 1 && s[0] == '0') then None
    else Some((DecimalValue(s[..n]), s[n..]))
  }

  function ReadInt(s: string): (r: Option<(Json, string)>)
    requires s != []
    ensures r.Some? ==> |r.value.1| < |s|
  {
    if s[0] == '-' then
      match ReadNumber(s[1..])
      case Some((n, rest)) => Some((Int(-n), rest))
      case None => None
    else
      match ReadNumber(s)
      case Some((n, rest)) => Some((Int(n), rest))
      case None => None
  }

  function ReadWord(s: string): (r: Option<(Json, string)>)
    ensures r.Some? ==> |r.value.1| < |s|
  {
    if StartsWith(s, "null") then Some((Null, s[4..]))
    else if StartsWith(s, "true") then Some((Bool(true), s[4..]))
    else if StartsWith(s, "false") then Some((Bool(false), s[5..]))
    else None
  }

  function ReadValue(s: string): (r: Option<(Json, string)>)
    ensures r.Some? ==> |r.value.1| < |s|
    decreases |s|, 0
  {
    if s == [] then None
    else if s[0] == '"' then
      match ReadChars(s[1..])
      case Some((text, rest)) => Some((Str(text), rest))
      case None => None
    else if s[0] == '[' then
      if |s| > 1 && s[1] == ']' then Some((Arr([]), s[2..]))
      else match ReadItems(s[1..])
           case Some((items, rest)) => Some((Arr(items), rest))
           case None => None
    else if s[0] == '{' then
      if |s| > 1 && s[1] == '}' then Some((Obj(map[]), s[2..]))
      else match ReadMembers(s[1..])
           case Some((members, rest)) => Some((Obj(members), rest))
           case None => None
    else if s[0] == '-' || IsDigit(s[0]) then ReadInt(s)
    else ReadWord(s)
  }

  /** Values separated by commas up to the closing bracket. */
  function ReadItems(s: string): (r: Option<(seq<Json>, string)>)
    ensures r.Some? ==> |r.value.1| < |s|
    decreases |s|, 1
  {
    match ReadValue(s)
    case None => None
    case Some((v, rest)) =>
      if rest == [] then None
      else if rest[0] == ']' then Some(([v], rest[1..]))
      else if rest[0] == ',' then
        match ReadItems(rest[1..])
        case Some((items, rest')) => Some(([v] + items, rest'))
        case None => None
      else None
  }

  /** Members separated by commas up to the closing brace. */
  function ReadMembers(s: string): (r: Option<(map<string, Json>, string)>)
    ensures r.Some? ==> |r.value.1| < |s|
    decreases |s|, 1
  {
    if s == [] || s[0] != '"' then None
    else match ReadChars(s[1..])
         case None => None
         case Some((key, afterKey)) =>
           if afterKey == [] || afterKey[0] != ':' then None
           else match ReadValue(afterKey[1..])
                case None => None
                case Some((v, rest)) =>
                  if rest == [] then None
                  else if rest[0] == '}' then Some((map[key := v], rest[1..]))
                  else if rest[0] == ',' then
                    match ReadMembers(rest[1..])
                    case Some((members, rest')) => Some((map[key := v] + members, rest'))
                    case None => None
                  else None
  }

  function Decode(s: string): Option<Json> {
    match ReadValue(s)
    case Some((v, rest)) => if rest == [] then Some(v) else None
    case None => None
  }

  // ---------- Reading back what was printed ----------

  lemma {:induction false} ReadEscaped(c: char, rest: string)
    ensures ReadChar(EscapeChar(c) + rest) == Some((c, rest))
    ensures EscapeChar(c)[0] != '"'
  {
    var n := c as int;
    var s := EscapeChar(c) + rest;
    assert s[|EscapeChar(c)|..] == rest;
    if n < 0x20 && n != 8 && n != 9 && n != 10 && n != 12 && n != 13 {
      HexInverse(n / 16);
      HexInverse(n % 16);
      assert s[2..6] == ['0', '0', HexDigit(n / 16), HexDigit(n % 16)];
      assert ReadHex4(s[2..6]) == Some(c);
    }
  }

  lemma {:induction false} ReadEscapedChars(s: string, rest: string)
    ensures ReadChars(EscapeChars(s) + "\"" + rest) == Some((s, rest))
  {
    var text := EscapeChars(s) + "\"" + rest;
    if s == [] {
      assert text[1..] == rest;
    } else {
      var tail := EscapeChars(s[1..]) + "\"" + rest;
      assert text == EscapeChar(s[0]) + tail;
      assert text[0] == EscapeChar(s[0])[0];
      ReadEscaped(s[0], tail);
      ReadEscapedChars(s[1..], rest);
      assert [s[0]] + s[1..] == s;
    }
  }

  lemma {:induction false} DecimalHead(n: nat)
    ensures n > 0 ==> Decimal(n)[0] != '0'
    ensures n < 10 ==> |Decimal(n)| == 1
  {
    if n >= 10 {
      DecimalHead(n / 10);
    }
  }

  lemma {:induction false} ReadDecimal(n: nat, rest: string)
    requires rest == [] || !IsDigit(rest[0])
    ensures ReadNumber(Decimal(n) + rest) == Some((n, rest))
  {
    var s := Decimal(n) + rest;
    var k := |Decimal(n)|;
    assert s[..k] == Decimal(n) && s[k..] == rest;
    DecimalDigits(n);
    DigitSpanIs(Decimal(n), rest);
    DecimalInverse(n);
    DecimalHead(n);
  }

  lemma {:induction false} ReadsInt(s: string)
    requires s != [] && (s[0] == '-' || IsDigit(s[0]))
    ensures ReadValue(s) == ReadInt(s)
  {}

  lemma {:induction false} ReadNegative(n: int, rest: string)
    requires n >= 0
    requires rest == [] || !IsDigit(rest[0])
    ensures ReadInt("-" + Decimal(n) + rest) == Some((Int(-n), rest))
  {
    var s := "-" + Decimal(n) + rest;
    Assoc("-", Decimal(n), rest);
    assert s[1..] == Decimal(n) + rest;
    ReadDecimal(n, rest);
  }

  lemma {:induction false} ReadNatural(n: nat, rest: string)
    requires rest == [] || !IsDigit(rest[0])
    ensures IsDigit((Decimal(n) + rest)[0])
    ensures ReadInt(Decimal(n) + rest) == Some((Int(n), rest))
  {
    DecimalDigits(n);
    assert (Decimal(n) + rest)[0] == Decimal(n)[0];
    ReadDecimal(n, rest);
  }

  lemma {:induction false} ReadPrintedInt(n: int, rest: string)
    requires rest == [] || !IsDigit(rest[0])
    ensures ReadValue(EncodeInt(n) + rest) == Some((Int(n), rest))
  {
    if n < 0 {
      ReadNegative(-n, rest);
      ReadsInt("-" + Decimal(-n) + rest);
    } else {
      ReadNatural(n, rest);
      ReadsInt(Decimal(n) + rest);
    }
  }

  lemma {:induction false} ReadPrintedString(text: string, rest: string)
    ensures ReadValue(EncodeString(text) + rest) == Some((Str(text), rest))
  {
    assert (EncodeString(text) + rest)[1..] == EscapeChars(text) + "\"" + rest;
    ReadEscapedChars(text, rest);
  }

  lemma {:induction false} ReadPrintedWord(v: Json, rest: string)
    requires v.Null? || v.Bool?
    ensures ReadValue(Encode(v) + rest) == Some((v, rest))
  {
    var s := Encode(v) + rest;
    var n := |Encode(v)|;
    assert s[..n] == Encode(v) && s[n..] == rest;
    if v.Bool? {
      assert s[0] == s[..4][0];
      if !v.b {
        assert !StartsWith(s, "true");
      }
    }
    assert ReadWord(s) == Some((v, rest));
  }

  /** Reading a printed value gives the value and leaves what follows. */
  lemma {:induction false} ReadPrinted(v: Json, rest: string)
    requires rest == [] || !IsDigit(rest[0])
    ensures ReadValue(Encode(v) + rest) == Some((v, rest))
    decreases v, 1
  {
    match v {
      case Int(n) => ReadPrintedInt(n, rest);
      case Str(text) => ReadPrintedString(text, rest);
      case Arr(items) => ReadPrintedArray(items, rest);
      case Obj(members) => ReadPrintedObject(v, rest);
      case _ => ReadPrintedWord(v, rest);
    }
  }

  lemma {:induction false} ReadPrintedArray(items: seq<Json>, rest: string)
    ensures ReadValue("[" + EncodeItems(items) + "]" + rest) == Some((Arr(items), rest))
    decreases items, 1
  {
    var s := "[" + EncodeItems(items) + "]" + rest;
    if items == [] {
      assert s[1] == ']' && s[2..] == rest;
    } else {
      var body := EncodeItems(items) + "]" + rest;
      assert s[1..] == body;
      FirstOfItems(items);
      assert s[1] == EncodeItems(items)[0];
      ReadPrintedItems(items, rest);
    }
  }

  lemma {:induction false} ReadPrintedObject(v: Json, rest: string)
    requires v.Obj?
    ensures ReadValue(Encode(v) + rest) == Some((v, rest))
    decreases v, 0, 1
  {
    var keys := SortedKeys(v.members.Keys);
    var s := Encode(v) + rest;
    if keys == [] {
      assert Encode(v) == "{}";
      assert s[1] == '}' && s[2..] == rest;
      assert v.members == map[];
    } else {
      var body := EncodeMembers(v, keys) + "}" + rest;
      assert s[1..] == body;
      assert s[1] == '"' by {
        assert EncodeMembers(v, keys)[0] == EncodeMember(v, keys[0])[0];
      }
      ReadPrintedMembers(v, keys, rest);
      assert Restrict(v.members, keys) == v.members;
    }
  }

  /** No printed value starts with a closing bracket. */
  lemma {:induction false} FirstOfItems(items: seq<Json>)
    requires items != []
    ensures EncodeItems(items) != [] && EncodeItems(items)[0] != ']'
  {
    var text := Encode(items[0]);
    if items[0].Int? && items[0].n >= 0 {
      DecimalDigits(items[0].n);
      assert IsDigit(text[0]);
    }
    assert text != [] && text[0] != ']';
    assert EncodeItems(items)[0] == text[0];
  }

  function AfterItem(items: seq<Json>, rest: string): string
    requires items != []
  {
    if |items| == 1 then "]" + rest else "," + (EncodeItems(items[1..]) + "]" + rest)
  }

  lemma {:induction false} ItemsText(items: seq<Json>, rest: string)
    requires items != []
    ensures EncodeItems(items) + "]" + rest == Encode(items[0]) + AfterItem(items, rest)
  {
    var item := Encode(items[0]);
    if |items| == 1 {
      Assoc(item, "]", rest);
    } else {
      var others := EncodeItems(items[1..]);
      Assoc(item, ",", others);
      Assoc(item, "," + others, "]");
      Assoc(item, "," + others + "]", rest);
      Assoc(",", others, "]");
      Assoc(",", others + "]", rest);
    }
  }

  lemma {:induction false} ReadsItem(s: string, items: seq<Json>, tail: string, rest: string)
    requires items != [] && ReadValue(s) == Some((items[0], tail)) && tail != []
    requires if |items| == 1 then tail[0] == ']' && tail[1..] == rest
             else tail[0] == ',' && ReadItems(tail[1..]) == Some((items[1..], rest))
    ensures ReadItems(s) == Some((items, rest))
  {
    assert items == [items[0]] + items[1..];
    assert |items| == 1 ==> items == [items[0]];
  }

  lemma {:induction false} ReadPrintedItems(items: seq<Json>, rest: string)
    requires items != []
    ensures ReadItems(EncodeItems(items) + "]" + rest) == Some((items, rest))
    decreases items, 0
  {
    var tail := AfterItem(items, rest);
    assert tail[1..] == if |items| == 1 then rest else EncodeItems(items[1..]) + "]" + rest;
    if |items| > 1 {
      ReadPrintedItems(items[1..], rest);
    }
    ReadPrinted(items[0], tail);
    ItemsText(items, rest);
    ReadsItem(EncodeItems(items) + "]" + rest, items, tail, rest);
  }

  lemma {:induction false} ReadsMember(s: string, key: string, afterKey: string, value: Json, tail: string)
    requires s != [] && s[0] == '"' && ReadChars(s[1..]) == Some((key, afterKey))
    requires afterKey != [] && afterKey[0] == ':' && ReadValue(afterKey[1..]) == Some((value, tail))
    requires tail != []
    ensures tail[0] == '}' ==> ReadMembers(s) == Some((map[key := value], tail[1..]))
    ensures tail[0] == ',' && ReadMembers(tail[1..]).Some? ==>
              ReadMembers(s) == Some((map[key := value] + ReadMembers(tail[1..]).value.0,
                                      ReadMembers(tail[1..]).value.1))
  {}

  /** One member, read up to what follows its value. */
  lemma {:induction false} ReadMemberStep(key: string, text: string, value: Json, tail: string)
    requires ReadValue(text + tail) == Some((value, tail)) && tail != []
    ensures tail[0] == '}' ==>
              ReadMembers(EncodeString(key) + ":" + text + tail) == Some((map[key := value], tail[1..]))
    ensures tail[0] == ',' && ReadMembers(tail[1..]).Some? ==>
              ReadMembers(EncodeString(key) + ":" + text + tail)
              == Some((map[key := value] + ReadMembers(tail[1..]).value.0, ReadMembers(tail[1..]).value.1))
  {
    var s := EncodeString(key) + ":" + text + tail;
    var afterKey := ":" + (text + tail);
    MemberText(key, text, tail);
    ReadEscapedChars(key, afterKey);
    assert afterKey[1..] == text + tail;
    ReadsMember(s, key, afterKey, value, tail);
  }

  lemma {:induction false} MemberText(key: string, text: string, tail: string)
    ensures var s := EncodeString(key) + ":" + text + tail;
            s != [] && s[0] == '"' && s[1..] == EscapeChars(key) + "\"" + (":" + (text + tail))
  {
    var e := EscapeChars(key);
    var s := EncodeString(key) + ":" + text + tail;
    Assoc(EncodeString(key) + ":", text, tail);
    Assoc(EncodeString(key), ":", text + tail);
    assert s == EncodeString(key) + (":" + (text + tail));
    Assoc("\"", e, "\"");
    Assoc("\"", e + "\"", ":" + (text + tail));
    assert s == "\"" + (e + "\"" + (":" + (text + tail)));
  }

  /** What follows the first of several printed members. */
  function AfterMember(v: Json, keys: seq<string>, rest: string): string
    requires v.Obj? && keys != [] && forall k :: k in keys ==> k in v.members
  {
    if |keys| == 1 then "}" + rest else "," + (EncodeMembers(v, keys[1..]) + "}" + rest)
  }

  lemma {:induction false} MembersText(v: Json, keys: seq<string>, rest: string)
    requires v.Obj? && keys != [] && forall k :: k in keys ==> k in v.members
    ensures EncodeMembers(v, keys) + "}" + rest
         == EncodeString(keys[0]) + ":" + Encode(v.members[keys[0]]) + AfterMember(v, keys, rest)
  {
    var member := EncodeMember(v, keys[0]);
    if |keys| == 1 {
      Assoc(member, "}", rest);
    } else {
      var others := EncodeMembers(v, keys[1..]);
      Assoc(member, ",", others);
      Assoc(member, "," + others, "}");
      Assoc(member, "," + others + "}", rest);
      Assoc(",", others, "}");
      Assoc(",", others + "}", rest);
    }
  }

  lemma {:induction false} RestrictCons(v: Json, keys: seq<string>)
    requires v.Obj? && keys != [] && forall k :: k in keys ==> k in v.members
    ensures Restrict(v.members, keys) == map[keys[0] := v.members[keys[0]]] + Restrict(v.members, keys[1..])
  {
    assert forall k :: k in keys <==> k == keys[0] || k in keys[1..];
  }

  lemma {:induction false} ReadPrintedMembers(v: Json, keys: seq<string>, rest: string)
    requires v.Obj? && keys != [] && forall k :: k in keys ==> k in v.members
    ensures ReadMembers(EncodeMembers(v, keys) + "}" + rest) == Some((Restrict(v.members, keys), rest))
    decreases v, 0, 0, |keys|
  {
    var value := v.members[keys[0]];
    var tail := AfterMember(v, keys, rest);
    MembersText(v, keys, rest);
    ReadPrinted(value, tail);
    ReadMemberStep(keys[0], Encode(value), value, tail);
    RestrictCons(v, keys);
    if |keys| == 1 {
      assert tail[0] == '}' && tail[1..] == rest;
      assert Restrict(v.members, keys[1..]) == map[];
      assert Restrict(v.members, keys) == map[keys[0] := value];
    } else {
      assert tail[0] == ',' && tail[1..] == EncodeMembers(v, keys[1..]) + "}" + rest;
      ReadPrintedMembers(v, keys[1..], rest);
    }
  }

  /** For every value, reading what the printer wrote gives the value back. */
  lemma EncodeRoundTrip(v: Json)
    ensures Decode(Encode(v)) == Some(v)
  {
    assert Encode(v) + [] == Encode(v);
    ReadPrinted(v, []);
  }

  /** Different values never print alike. */
  lemma EncodeInjective(v: Json, w: Json)
    requires Encode(v) == Encode(w)
    ensures v == w
  {
    EncodeRoundTrip(v);
    EncodeRoundTrip(w);
  }
}
