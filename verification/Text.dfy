/** Text, bytes and the few string operations that every component shares.
    A string is a sequence of Unicode scalar values; where the program counts
    or escapes bytes, the UTF-8 encoding is used. */
module Text {

  datatype Option<+T> = None | Some(value: T)

  datatype Result<+T, +E> = Ok(value: T) | Err(error: E)

  type byte = b: int | 0 <= b < 256

  lemma Assoc<T>(a: seq<T>, b: seq<T>, c: seq<T>)
    ensures a + b + c == a + (b + c)
  {}

  lemma ShiftFirst<T>(a: seq<T>, s: seq<T>)
    requires s != []
    ensures a + [s[0]] + s[1..] == a + s
  {}

  lemma DropFirst<T>(x: T, rest: seq<T>)
    ensures ([x] + rest)[0] == x && ([x] + rest)[1..] == rest
  {}

  predicate Distinct<T(==)>(s: seq<T>) {
    forall i, j :: 0 <= i < j < |s| ==> s[i] != s[j]
  }

  /** The entries of `m` under the given keys. */
  function Restrict<V>(m: map<string, V>, keys: seq<string>): map<string, V> {
    map k | k in keys && k in m :: m[k]
  }

  predicate Letter(c: char) {
    'a' <= c <= 'z' || 'A' <= c <= 'Z'
  }

  function Lower(c: char): char {
    if 'A' <= c <= 'Z' then (c as int + 32) as char else c
  }

  // ---------- UTF-8 ----------

  function Utf8Char(c: char): (r: seq<byte>)
    ensures 1 <= |r| <= 4
  {
    var n := c as int;
    if n < 0x80 then [n]
    else if n < 0x800 then [0xC0 + n / 64, 0x80 + n % 64]
    else if n < 0x10000 then [0xE0 + n / 4096, 0x80 + n / 64 % 64, 0x80 + n % 64]
    else [0xF0 + n / 262144, 0x80 + n / 4096 % 64, 0x80 + n / 64 % 64, 0x80 + n % 64]
  }

  function Utf8(s: string): (r: seq<byte>)
    ensures |s| <= |r|
  {
    if s == [] then [] else Utf8Char(s[0]) + Utf8(s[1..])
  }

  function ByteLen(s: string): nat {
    |Utf8(s)|
  }

  predicate Ascii(s: string) {
    forall i :: 0 <= i < |s| ==> s[i] as int < 0x80
  }

  lemma {:induction false} Utf8Concat(a: string, b: string)
    ensures Utf8(a + b) == Utf8(a) + Utf8(b)
  {
    if a == [] {
      assert a + b == b;
    } else {
      assert (a + b)[1..] == a[1..] + b;
      Utf8Concat(a[1..], b);
    }
  }

  lemma {:induction false} AsciiByteLen(s: string)
    requires Ascii(s)
    ensures ByteLen(s) == |s|
  {
    if s != [] {
      AsciiByteLen(s[1..]);
    }
  }

  // ---------- Hexadecimal ----------

  function HexDigit(n: int): char
    requires 0 <= n < 16
  {
    "0123456789ABCDEF"[n]
  }

  function HexValue(c: char): Option<int> {
    if '0' <= c <= '9' then Some(c as int - '0' as int)
    else if 'A' <= c <= 'F' then Some(c as int - 'A' as int + 10)
    else if 'a' <= c <= 'f' then Some(c as int - 'a' as int + 10)
    else None
  }

  lemma {:induction false} HexInverse(n: int)
    requires 0 <= n < 16
    ensures HexValue(HexDigit(n)) == Some(n)
    ensures '0' <= HexDigit(n) <= '9' || 'A' <= HexDigit(n) <= 'F'
  {
    if n < 10 {
      assert HexDigit(n) as int == '0' as int + n;
    } else {
      assert HexDigit(n) as int == 'A' as int + n - 10;
    }
  }

  /** `%XX` for one byte. */
  function Escape(b: byte): string {
    ['%', HexDigit(b / 16), HexDigit(b % 16)]
  }

  // ---------- Decimal numbers ----------

  predicate IsDigit(c: char) {
    '0' <= c <= '9'
  }

  predicate AllDigits(s: string) {
    forall i :: 0 <= i < |s| ==> IsDigit(s[i])
  }

  function DigitChar(n: int): char
    requires 0 <= n < 10
  {
    "0123456789"[n]
  }

  function Decimal(n: nat): (s: string)
    ensures s != []
  {
    if n < 10 then [DigitChar(n)] else Decimal(n / 10) + [DigitChar(n % 10)]
  }

  lemma {:induction false} DecimalDigits(n: nat)
    ensures AllDigits(Decimal(n))
  {
    if n >= 10 {
      DecimalDigits(n / 10);
    }
  }

  function DigitValue(c: char): nat {
    if IsDigit(c) then c as int - '0' as int else 0
  }

  function DecimalValue(s: string): nat {
    if s == [] then 0 else DecimalValue(s[..|s| - 1]) * 10 + DigitValue(s[|s| - 1])
  }

  lemma {:induction false} DecimalInverse(n: nat)
    ensures DecimalValue(Decimal(n)) == n
  {
    if n >= 10 {
      DecimalInverse(n / 10);
      var s := Decimal(n);
      assert s[..|s| - 1] == Decimal(n / 10);
      assert s[|s| - 1] == DigitChar(n % 10);
    } else {
      assert Decimal(n)[..0] == [];
      assert DecimalValue([DigitChar(n)]) == n;
    }
  }

  /** Canonical digits are never longer than the digits that were read. */
  lemma {:induction false} DecimalShortest(s: string)
    requires s != [] && AllDigits(s)
    ensures |Decimal(DecimalValue(s))| <= |s|
  {
    var front := s[..|s| - 1];
    if front == [] {
      assert DecimalValue(front) == 0;
    } else {
      DecimalShortest(front);
      if DecimalValue(s) >= 10 {
        assert DecimalValue(s) / 10 == DecimalValue(front);
      }
    }
  }

  /** The number of leading digits. */
  function DigitSpan(s: string): (n: nat)
    ensures n <= |s|
  {
    if s == [] || !IsDigit(s[0]) then 0 else 1 + DigitSpan(s[1..])
  }

  lemma {:induction false} DigitSpanDigits(s: string)
    ensures AllDigits(s[..DigitSpan(s)])
  {
    if s != [] && IsDigit(s[0]) {
      DigitSpanDigits(s[1..]);
      var n := DigitSpan(s[1..]);
      assert s[..n + 1] == [s[0]] + s[1..][..n];
    }
  }

  lemma {:induction false} DigitSpanIs(digits: string, rest: string)
    requires AllDigits(digits) && (rest == [] || !IsDigit(rest[0]))
    ensures DigitSpan(digits + rest) == |digits|
  {
    if digits == [] {
      assert digits + rest == rest;
    } else {
      assert (digits + rest)[1..] == digits[1..] + rest;
      DigitSpanIs(digits[1..], rest);
    }
  }

  // ---------- Doubled delimiters ----------

  predicate PairAt(s: string, c: char, i: int) {
    0 <= i && i + 1 < |s| && s[i] == c && s[i + 1] == c
  }

  /** The first position from `from` on where `c` is doubled. */
  function FindPair(s: string, c: char, from: nat): (r: Option<nat>)
    ensures r.Some? ==> from <= r.value && r.value + 2 <= |s|
    decreases |s| - from
  {
    if from + 2 > |s| then None
    else if s[from] == c && s[from + 1] == c then Some(from)
    else FindPair(s, c, from + 1)
  }

  /** `FindPair` finds the first doubled delimiter, if there is one. */
  lemma {:induction false} FindPairFirst(s: string, c: char, from: nat)
    ensures var r := FindPair(s, c, from);
            && (r.Some? ==> PairAt(s, c, r.value) && forall i :: from <= i < r.value ==> !PairAt(s, c, i))
            && (r.None? ==> forall i :: from <= i ==> !PairAt(s, c, i))
    decreases |s| - from
  {
    if from + 2 <= |s| && !PairAt(s, c, from) {
      FindPairFirst(s, c, from + 1);
    }
  }

  lemma {:induction false} FindPairIs(s: string, c: char, from: nat, i: nat)
    requires from <= i && PairAt(s, c, i) && forall j :: from <= j < i ==> !PairAt(s, c, j)
    ensures FindPair(s, c, from) == Some(i)
  {
    FindPairFirst(s, c, from);
  }

  // ---------- Splitting and joining ----------

  /** Like `strings.Split` with a one-element separator: never empty. */
  function Split<T(==)>(s: seq<T>, sep: T): (r: seq<seq<T>>)
    ensures |r| >= 1
  {
    if s == [] then [[]]
    else
      var rest := Split(s[1..], sep);
      if s[0] == sep then [[]] + rest
      else [[s[0]] + rest[0]] + rest[1..]
  }

  function Join<T>(parts: seq<seq<T>>, sep: T): seq<T> {
    if parts == [] then []
    else if |parts| == 1 then parts[0]
    else parts[0] + [sep] + Join(parts[1..], sep)
  }

  lemma {:induction false} SplitHead<T>(a: seq<T>, rest: seq<T>, sep: T)
    requires sep !in a
    ensures Split(a + [sep] + rest, sep) == [a] + Split(rest, sep)
  {
    var s := a + [sep] + rest;
    if a == [] {
      assert s[1..] == rest;
    } else {
      assert s[1..] == a[1..] + [sep] + rest;
      SplitHead(a[1..], rest, sep);
      assert [a[0]] + a[1..] == a;
    }
  }

  lemma {:induction false} SplitWhole<T>(a: seq<T>, sep: T)
    requires sep !in a
    ensures Split(a, sep) == [a]
  {
    if a != [] {
      SplitWhole(a[1..], sep);
      assert [a[0]] + a[1..] == a;
    }
  }

  lemma {:induction false} SplitJoin<T>(parts: seq<seq<T>>, sep: T)
    requires parts != []
    requires forall i :: 0 <= i < |parts| ==> sep !in parts[i]
    ensures Split(Join(parts, sep), sep) == parts
  {
    if |parts| == 1 {
      SplitWhole(parts[0], sep);
    } else {
      SplitJoin(parts[1..], sep);
      SplitHead(parts[0], Join(parts[1..], sep), sep);
    }
  }

  lemma {:induction false} JoinSplit<T>(s: seq<T>, sep: T)
    ensures Join(Split(s, sep), sep) == s
  {
    if s != [] {
      var rest := Split(s[1..], sep);
      JoinSplit(s[1..], sep);
      if s[0] == sep {
        assert ([[]] + rest)[1..] == rest;
        assert Join([[]] + rest, sep) == [sep] + s[1..];
      } else {
        var parts := [[s[0]] + rest[0]] + rest[1..];
        assert parts[1..] == rest[1..];
        assert Join(parts, sep) == [s[0]] + Join(rest, sep);
      }
    }
  }

  /** Position of the first occurrence. */
  function IndexOf<T(==)>(s: seq<T>, x: T): (r: Option<nat>)
    ensures r.Some? ==> r.value < |s| && s[r.value] == x && x !in s[..r.value]
    ensures r.None? ==> x !in s
  {
    if s == [] then None
    else if s[0] == x then Some(0)
    else
      match IndexOf(s[1..], x)
      case None => None
      case Some(i) =>
        assert s[..i + 1] == [s[0]] + s[1..][..i];
        Some(i + 1)
  }

  lemma {:induction false} IndexOfIs<T>(s: seq<T>, x: T, i: nat)
    requires i < |s| && s[i] == x && x !in s[..i]
    ensures IndexOf(s, x) == Some(i)
  {
    assert forall j :: 0 <= j < i ==> s[..i][j] != x;
    assert IndexOf(s, x).Some? ==> forall j :: 0 <= j < IndexOf(s, x).value ==> s[..IndexOf(s, x).value][j] != x;
  }

  // ---------- White space ----------

  /** Unicode white space, as both Go's and Rust's trimming see it. */
  predicate IsSpace(c: char) {
    var n := c as int;
    || 0x09 <= n <= 0x0D || n == 0x20 || n == 0x85 || n == 0xA0 || n == 0x1680
    || 0x2000 <= n <= 0x200A || n == 0x2028 || n == 0x2029 || n == 0x202F
    || n == 0x205F || n == 0x3000
  }

  function TrimStart(s: string): string {
    if s != [] && IsSpace(s[0]) then TrimStart(s[1..]) else s
  }

  function TrimEnd(s: string): string {
    if s != [] && IsSpace(s[|s| - 1]) then TrimEnd(s[..|s| - 1]) else s
  }

  function Trim(s: string): string {
    TrimEnd(TrimStart(s))
  }

  lemma {:induction false} TrimStartShorter(s: string)
    ensures ByteLen(TrimStart(s)) <= ByteLen(s)
  {
    if s != [] && IsSpace(s[0]) {
      TrimStartShorter(s[1..]);
    }
  }

  lemma {:induction false} TrimEndShorter(s: string)
    ensures ByteLen(TrimEnd(s)) <= ByteLen(s)
  {
    if s != [] && IsSpace(s[|s| - 1]) {
      TrimEndShorter(s[..|s| - 1]);
      Utf8Concat(s[..|s| - 1], [s[|s| - 1]]);
      assert s == s[..|s| - 1] + [s[|s| - 1]];
    }
  }

  lemma {:induction false} TrimShorter(s: string)
    ensures ByteLen(Trim(s)) <= ByteLen(s)
  {
    TrimStartShorter(s);
    TrimEndShorter(TrimStart(s));
  }

  lemma {:induction false} TrimStartLength(s: string)
    ensures |TrimStart(s)| <= |s|
  {
    if s != [] && IsSpace(s[0]) {
      TrimStartLength(s[1..]);
    }
  }

  lemma {:induction false} TrimEndLength(s: string)
    ensures |TrimEnd(s)| <= |s|
  {
    if s != [] && IsSpace(s[|s| - 1]) {
      TrimEndLength(s[..|s| - 1]);
    }
  }

  lemma TrimLength(s: string)
    ensures |Trim(s)| <= |s|
  {
    TrimStartLength(s);
    TrimEndLength(TrimStart(s));
  }

  /** Text that neither starts nor ends with white space is left alone. */
  lemma {:induction false} TrimNothing(s: string)
    requires s != [] && !IsSpace(s[0]) && !IsSpace(s[|s| - 1])
    ensures Trim(s) == s
  {}

  predicate Blank(s: string) {
    forall i :: 0 <= i < |s| ==> IsSpace(s[i])
  }

  /** `t` is what is left of `s` without the white space at both ends. */
  ghost predicate TrimsTo(s: string, t: string) {
    && (t != [] ==> !IsSpace(t[0]) && !IsSpace(t[|t| - 1]))
    && exists a, b :: Leaves(s, a, b, t)
  }

  ghost predicate Leaves(s: string, a: int, b: int, t: string) {
    0 <= a <= b <= |s| && t == s[a..b] && forall i :: 0 <= i < a || b <= i < |s| ==> IsSpace(s[i])
  }

  lemma {:induction false} TrimStartIs(s: string) returns (a: nat)
    ensures a <= |s| && TrimStart(s) == s[a..] && Blank(s[..a]) && (a < |s| ==> !IsSpace(s[a]))
    ensures a == |s| <==> Blank(s)
  {
    if s != [] && IsSpace(s[0]) {
      var rest := TrimStartIs(s[1..]);
      a := rest + 1;
      assert s[1..][rest..] == s[a..];
      assert forall i :: 1 <= i < a ==> s[i] == s[1..][..rest][i - 1];
    } else {
      a := 0;
    }
  }

  lemma {:induction false} TrimEndIs(s: string) returns (b: nat)
    ensures b <= |s| && TrimEnd(s) == s[..b] && Blank(s[b..]) && (b > 0 ==> !IsSpace(s[b - 1]))
    ensures b == 0 <==> Blank(s)
  {
    if s != [] && IsSpace(s[|s| - 1]) {
      var front := s[..|s| - 1];
      b := TrimEndIs(front);
      assert front[..b] == s[..b];
      assert forall i :: b <= i < |s| - 1 ==> s[i] == front[b..][i - b];
    } else {
      b := |s|;
    }
  }

  /** Trimming removes the white space at both ends, and nothing else. */
  lemma {:induction false} TrimExact(s: string)
    ensures TrimsTo(s, Trim(s))
    ensures Trim(s) == "" <==> Blank(s)
  {
    var a := TrimStartIs(s);
    var mid := s[a..];
    var b := TrimEndIs(mid);
    assert mid[..b] == s[a..a + b] && mid[b..] == s[a + b..];
    if a < |s| {
      assert mid[0] == s[a];
      assert !Blank(mid);
      assert Trim(s)[0] == s[a] && Trim(s)[b - 1] == mid[b - 1];
    }
    assert forall i :: 0 <= i < a ==> s[i] == s[..a][i];
    assert forall i :: a + b <= i < |s| ==> s[i] == mid[b..][i - a - b];
    assert Leaves(s, a, a + b, Trim(s));
  }

  lemma {:induction false} TextKept(s: string, a: int, b: int, t: string, i: int)
    requires Leaves(s, a, b, t) && 0 <= i < |s| && !IsSpace(s[i])
    ensures a <= i < b
  {}

  lemma {:induction false} LeavesUnique(s: string, a: int, b: int, t: string, c: int, d: int, u: string)
    requires Leaves(s, a, b, t) && (t != [] ==> !IsSpace(t[0]) && !IsSpace(t[|t| - 1]))
    requires Leaves(s, c, d, u) && (u != [] ==> !IsSpace(u[0]) && !IsSpace(u[|u| - 1]))
    ensures t == u
  {
    if t != [] {
      assert t[0] == s[a] && t[|t| - 1] == s[b - 1];
      TextKept(s, c, d, u, a);
      TextKept(s, c, d, u, b - 1);
    }
    if u != [] {
      assert u[0] == s[c] && u[|u| - 1] == s[d - 1];
      TextKept(s, a, b, t, c);
      TextKept(s, a, b, t, d - 1);
    }
  }

  /** Text can be trimmed in one way only. */
  lemma {:induction false} TrimUnique(s: string, t: string)
    requires TrimsTo(s, t)
    ensures t == Trim(s)
  {
    TrimExact(s);
    var a, b :| Leaves(s, a, b, t);
    var c, d :| Leaves(s, c, d, Trim(s));
    LeavesUnique(s, a, b, t, c, d, Trim(s));
  }

  /** No piece contains the separator. */
  lemma {:induction false} SplitClean<T>(s: seq<T>, sep: T)
    ensures forall i :: 0 <= i < |Split(s, sep)| ==> sep !in Split(s, sep)[i]
  {
    if s != [] {
      SplitClean(s[1..], sep);
    }
  }
}
