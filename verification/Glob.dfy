/** The ignore-file glob matcher: what a pattern means, and the memoised
    matcher that decides it. Patterns and values are byte strings. */
module Glob {
  import opened Text

  const STAR: byte := '*' as int
  const QUESTION: byte := '?' as int
  const SLASH: byte := '/' as int
  const OPEN: byte := '[' as int
  const CLOSE: byte := ']' as int
  const DASH: byte := '-' as int
  const BANG: byte := '!' as int
  const CARET: byte := '^' as int

  // ---------- What a pattern is ----------

  datatype Range = Range(lo: byte, hi: byte)

  datatype Token =
    | Exactly(b: byte)
    | AnyByte
    | Star
    | DoubleStar
    | Segments
    | Class(negated: bool, ranges: seq<Range>)

  /** The items of a character class from position `i`, and where they stop:
      at a closing bracket or at the end of the pattern. */
  function ClassItems(p: seq<byte>, i: nat): (r: (seq<Range>, nat))
    requires i <= |p|
    ensures i <= r.1 <= |p|
    ensures r.1 < |p| ==> p[r.1] == CLOSE
    decreases |p| - i
  {
    if i == |p| || p[i] == CLOSE then ([], i)
    else if i + 2 < |p| && p[i + 1] == DASH && p[i + 2] != CLOSE then
      var (rest, end) := ClassItems(p, i + 3);
      ([Range(p[i], p[i + 2])] + rest, end)
    else
      var (rest, end) := ClassItems(p, i + 1);
      ([Range(p[i], p[i])] + rest, end)
  }

  /** A well-formed class has an item and a closing bracket. */
  function ClassAt(p: seq<byte>, start: nat): (r: Option<(Token, nat)>)
    requires start < |p|
    ensures r.Some? ==> start < r.value.1 <= |p| && r.value.0.Class?
  {
    var negated := start + 1 < |p| && (p[start + 1] == BANG || p[start + 1] == CARET);
    var first := if negated then start + 2 else start + 1;
    var (ranges, end) := ClassItems(p, first);
    if ranges == [] || end == |p| then None else Some((Class(negated, ranges), end + 1))
  }

  /** The end of a run of stars. */
  function StarRun(p: seq<byte>, i: nat): (end: nat)
    requires i <= |p|
    ensures i <= end <= |p|
    decreases |p| - i
  {
    if i < |p| && p[i] == STAR then StarRun(p, i + 1) else i
  }

  /** The token at position `i` and the position after it. */
  function TokenAt(p: seq<byte>, i: nat): (r: (Token, nat))
    requires i < |p|
    ensures i < r.1 <= |p|
  {
    if p[i] == STAR then
      if i + 1 < |p| && p[i + 1] == STAR then
        var end := StarRun(p, i + 2);
        if end < |p| && p[end] == SLASH then (Segments, end + 1) else (DoubleStar, end)
      else (Star, i + 1)
    else if p[i] == QUESTION then (AnyByte, i + 1)
    else if p[i] == OPEN && ClassAt(p, i).Some? then ClassAt(p, i).value
    else (Exactly(p[i]), i + 1)
  }

  function Tokens(p: seq<byte>, i: nat): seq<Token>
    requires i <= |p|
    decreases |p| - i
  {
    if i == |p| then [] else [TokenAt(p, i).0] + Tokens(p, TokenAt(p, i).1)
  }

  // ---------- What a pattern means ----------

  predicate InRanges(ranges: seq<Range>, b: byte) {
    exists r :: r in ranges && r.lo <= b <= r.hi
  }

  predicate InClass(t: Token, b: byte)
    requires t.Class?
  {
    InRanges(t.ranges, b) != t.negated
  }

  /** The texts one token stands for. */
  predicate Accepts(t: Token, s: seq<byte>) {
    match t
    case Exactly(b) => s == [b]
    case AnyByte => |s| == 1 && s[0] != SLASH
    case Star => SLASH !in s
    case DoubleStar => true
    case Segments => s == [] || s[|s| - 1] == SLASH
    case Class(_, _) => |s| == 1 && s[0] != SLASH && InClass(t, s[0])
  }

  /** A text matches when it can be cut into one piece for each token. */
  ghost predicate Matches(ts: seq<Token>, s: seq<byte>) {
    if ts == [] then s == []
    else exists k :: 0 <= k <= |s| && Accepts(ts[0], s[..k]) && Matches(ts[1..], s[k..])
  }

  ghost predicate PatternMatches(p: seq<byte>, v: seq<byte>) {
    Matches(Tokens(p, 0), v)
  }

  // ---------- One step of each kind of token ----------

  lemma {:induction false} MatchIntro(ts: seq<Token>, s: seq<byte>, k: nat)
    requires ts != [] && k <= |s|
    requires Accepts(ts[0], s[..k]) && Matches(ts[1..], s[k..])
    ensures Matches(ts, s)
  {}

  lemma {:induction false} MatchElim(ts: seq<Token>, s: seq<byte>) returns (k: nat)
    requires ts != [] && Matches(ts, s)
    ensures k <= |s| && Accepts(ts[0], s[..k]) && Matches(ts[1..], s[k..])
  {
    k :| 0 <= k <= |s| && Accepts(ts[0], s[..k]) && Matches(ts[1..], s[k..]);
  }

  lemma {:induction false} OneByteStep(ts: seq<Token>, s: seq<byte>)
    requires ts != [] && (ts[0].Exactly? || ts[0].AnyByte? || ts[0].Class?)
    ensures Matches(ts, s) <==> s != [] && Accepts(ts[0], s[..1]) && Matches(ts[1..], s[1..])
  {
    if Matches(ts, s) {
      var k := MatchElim(ts, s);
      assert k == |s[..k]| == 1;
    }
  }

  /** A star token stops here, or takes one more byte that it may contain. */
  lemma {:induction false} StarStops(ts: seq<Token>, s: seq<byte>)
    requires ts != [] && (ts[0].Star? || ts[0].DoubleStar? || ts[0].Segments?)
    requires Matches(ts[1..], s)
    ensures Matches(ts, s)
  {
    assert s[0..] == s && s[..0] == [];
    MatchIntro(ts, s, 0);
  }

  lemma {:induction false} StarGrows(ts: seq<Token>, s: seq<byte>)
    requires ts != [] && s != [] && (ts[0].DoubleStar? || (ts[0].Star? && s[0] != SLASH))
    requires Matches(ts, s[1..])
    ensures Matches(ts, s)
  {
    var k := MatchElim(ts, s[1..]);
    assert s == [s[0]] + s[1..];
    assert s[..k + 1] == [s[0]] + s[1..][..k];
    assert s[k + 1..] == s[1..][k..];
    MatchIntro(ts, s, k + 1);
  }

  lemma {:induction false} StarShrinks(ts: seq<Token>, s: seq<byte>)
    requires ts != [] && (ts[0].Star? || ts[0].DoubleStar?)
    requires Matches(ts, s) && !Matches(ts[1..], s)
    ensures s != [] && (ts[0].Star? ==> s[0] != SLASH) && Matches(ts, s[1..])
  {
    var k := MatchElim(ts, s);
    assert s[0..] == s;
    assert k > 0 && s[..k][0] == s[0];
    assert s[1..][..k - 1] == s[..k][1..] && s[1..][k - 1..] == s[k..];
    MatchIntro(ts, s[1..], k - 1);
  }

  lemma {:induction false} StarSteps(ts: seq<Token>, s: seq<byte>)
    requires ts != [] && (ts[0].Star? || ts[0].DoubleStar?)
    ensures Matches(ts, s)
            <==> (|| Matches(ts[1..], s)
                  || (s != [] && (ts[0].Star? ==> s[0] != SLASH) && Matches(ts, s[1..])))
  {
    if Matches(ts[1..], s) {
      StarStops(ts, s);
    } else if s != [] && (ts[0].Star? ==> s[0] != SLASH) && Matches(ts, s[1..]) {
      StarGrows(ts, s);
    } else if Matches(ts, s) {
      StarShrinks(ts, s);
    }
  }

  /** The rest of the pattern matches right after the slash at `i`. */
  ghost predicate AfterSlash(ts: seq<Token>, v: seq<byte>, i: int) {
    0 <= i < |v| && v[i] == SLASH && Matches(ts, v[i + 1..])
  }

  ghost predicate AfterSomeSlash(ts: seq<Token>, v: seq<byte>, j: nat) {
    exists i :: j <= i && AfterSlash(ts, v, i)
  }

  lemma {:induction false} SegmentsIntro(ts: seq<Token>, v: seq<byte>, j: nat, i: nat)
    requires ts != [] && ts[0].Segments? && j <= i && AfterSlash(ts[1..], v, i)
    ensures Matches(ts, v[j..])
  {
    var s := v[j..];
    var k := i + 1 - j;
    assert s[k..] == v[i + 1..];
    assert s[..k][k - 1] == SLASH;
    MatchIntro(ts, s, k);
  }

  lemma {:induction false} SegmentsElim(ts: seq<Token>, v: seq<byte>, j: nat) returns (i: nat)
    requires j <= |v| && ts != [] && ts[0].Segments?
    requires Matches(ts, v[j..]) && !Matches(ts[1..], v[j..])
    ensures j <= i && AfterSlash(ts[1..], v, i)
  {
    var s := v[j..];
    var k := MatchElim(ts, s);
    assert s[0..] == s;
    i := j + k - 1;
    assert s[k..] == v[i + 1..] && v[i] == s[..k][k - 1];
  }

  /** `**` + `/` stands for nothing or for text up to and including a slash. */
  lemma {:induction false} SegmentsStep(ts: seq<Token>, v: seq<byte>, j: nat)
    requires j <= |v| && ts != [] && ts[0].Segments?
    ensures Matches(ts, v[j..])
            <==> (Matches(ts[1..], v[j..]) || AfterSomeSlash(ts[1..], v, j))
  {
    if Matches(ts[1..], v[j..]) {
      StarStops(ts, v[j..]);
    } else if AfterSomeSlash(ts[1..], v, j) {
      var i :| j <= i && AfterSlash(ts[1..], v, i);
      SegmentsIntro(ts, v, j, i);
    } else if Matches(ts, v[j..]) {
      var i := SegmentsElim(ts, v, j);
    }
  }

  // ---------- The matcher ----------

  lemma {:induction false} InRangesCons(ranges: seq<Range>, r: Range, b: byte)
    ensures InRanges([r] + ranges, b) <==> InRanges(ranges, b) || r.lo <= b <= r.hi
  {
    assert forall x :: x in [r] + ranges <==> x in ranges || x == r;
  }

  /** The class at `start`, from its items. */
  lemma {:induction false} ClassAtIs(p: seq<byte>, start: nat, negated: bool, first: nat)
    requires start < |p| && negated == (start + 1 < |p| && (p[start + 1] == BANG || p[start + 1] == CARET))
    requires first == if negated then start + 2 else start + 1
    ensures var (ranges, end) := ClassItems(p, first);
            ClassAt(p, start) == if ranges == [] || end == |p| then None else Some((Class(negated, ranges), end + 1))
  {}

  /** The loop over the items of a class, for the byte `b`. */
  method ScanItems(p: seq<byte>, first: nat, b: byte) returns (index: nat, matched: bool, hasItem: bool)
    requires first <= |p|
    ensures index == ClassItems(p, first).1
    ensures hasItem <==> ClassItems(p, first).0 != []
    ensures matched <==> InRanges(ClassItems(p, first).0, b)
  {
    index := first;
    matched, hasItem := false, false;
    while index < |p| && p[index] != CLOSE
      invariant index <= |p|
      invariant ClassItems(p, first).1 == ClassItems(p, index).1
      invariant ClassItems(p, first).0 == [] <==> !hasItem && ClassItems(p, index).0 == []
      invariant InRanges(ClassItems(p, first).0, b) <==> matched || InRanges(ClassItems(p, index).0, b)
    {
      hasItem := true;
      var low := p[index];
      if index + 2 < |p| && p[index + 1] == DASH && p[index + 2] != CLOSE {
        InRangesCons(ClassItems(p, index + 3).0, Range(low, p[index + 2]), b);
        matched := matched || low <= b <= p[index + 2];
        index := index + 3;
      } else {
        InRangesCons(ClassItems(p, index + 1).0, Range(low, low), b);
        matched := matched || low == b;
        index := index + 1;
      }
    }
  }

  /** `class_match`: the end of the class at `start` and whether it contains
      the byte at `valueIndex`. */
  method ClassMatch(p: seq<byte>, v: seq<byte>, start: nat, valueIndex: nat)
    returns (r: Option<(nat, bool)>)
    requires start < |p|
    ensures r.Some? <==> valueIndex < |v| && v[valueIndex] != SLASH && ClassAt(p, start).Some?
    ensures r.Some? ==>
              && r.value.0 == ClassAt(p, start).value.1
              && r.value.1 == InClass(ClassAt(p, start).value.0, v[valueIndex])
  {
    if valueIndex >= |v| || v[valueIndex] == SLASH {
      return None;
    }
    var index := start + 1;
    var negated := index < |p| && (p[index] == BANG || p[index] == CARET);
    if negated {
      index := index + 1;
    }
    ClassAtIs(p, start, negated, index);
    var matched, hasItem;
    index, matched, hasItem := ScanItems(p, index, v[valueIndex]);
    if hasItem && index < |p| {
      return Some((index + 1, if negated then !matched else matched));
    }
    return None;
  }

  function Slot(p: seq<byte>, v: seq<byte>, i: nat, j: nat): nat {
    i * (|v| + 1) + j
  }

  /** Every filled slot holds the meaning of its pair of positions. */
  ghost predicate MemoCorrect(p: seq<byte>, v: seq<byte>, memo: array<Option<bool>>)
    reads memo
  {
    && memo.Length == (|p| + 1) * (|v| + 1)
    && forall i: nat, j: nat :: i <= |p| && j <= |v| && Slot(p, v, i, j) < memo.Length
         && memo[Slot(p, v, i, j)].Some?
         ==> (memo[Slot(p, v, i, j)].value <==> Matches(Tokens(p, i), v[j..]))
  }

  lemma SlotInBounds(p: seq<byte>, v: seq<byte>, i: nat, j: nat)
    requires i <= |p| && j <= |v|
    ensures Slot(p, v, i, j) < (|p| + 1) * (|v| + 1)
  {
    assert i * (|v| + 1) <= |p| * (|v| + 1);
    assert (|p| + 1) * (|v| + 1) == |p| * (|v| + 1) + (|v| + 1);
  }

  /** Different pairs of positions never share a slot. */
  lemma SlotInjective(p: seq<byte>, v: seq<byte>, i: nat, j: nat, i': nat, j': nat)
    requires j <= |v| && j' <= |v| && (i < i' || (i == i' && j < j'))
    ensures Slot(p, v, i, j) < Slot(p, v, i', j')
  {
    if i < i' {
      assert (i + 1) * (|v| + 1) <= i' * (|v| + 1);
    }
  }

  /** Storing into one slot touches no other pair of positions. */
  lemma {:induction false} SlotsApart(p: seq<byte>, v: seq<byte>, i: nat, j: nat)
    requires i <= |p| && j <= |v|
    ensures forall i': nat, j': nat :: j' <= |v| && (i' != i || j' != j)
              ==> Slot(p, v, i', j') != Slot(p, v, i, j)
  {
    forall i': nat, j': nat | j' <= |v| && (i' != i || j' != j)
      ensures Slot(p, v, i', j') != Slot(p, v, i, j)
    {
      if i < i' || (i == i' && j < j') {
        SlotInjective(p, v, i, j, i', j');
      } else {
        SlotInjective(p, v, i', j', i, j);
      }
    }
  }

  method Search(p: seq<byte>, v: seq<byte>, i: nat, j: nat, memo: array<Option<bool>>)
    returns (result: bool)
    requires i <= |p| && j <= |v|
    requires MemoCorrect(p, v, memo)
    modifies memo
    ensures MemoCorrect(p, v, memo)
    ensures result <==> Matches(Tokens(p, i), v[j..])
    decreases |p| - i, |v| - j, 2
  {
    SlotInBounds(p, v, i, j);
    var slot := Slot(p, v, i, j);
    if memo[slot].Some? {
      return memo[slot].value;
    }
    result := Decide(p, v, i, j, memo);
    SlotsApart(p, v, i, j);
    memo[slot] := Some(result);
  }

  /** The case split of `matches`, before the answer is stored. */
  method Decide(p: seq<byte>, v: seq<byte>, i: nat, j: nat, memo: array<Option<bool>>)
    returns (result: bool)
    requires i <= |p| && j <= |v|
    requires MemoCorrect(p, v, memo)
    modifies memo
    ensures MemoCorrect(p, v, memo)
    ensures result <==> Matches(Tokens(p, i), v[j..])
    decreases |p| - i, |v| - j, 1
  {
    if i == |p| {
      result := j == |v|;
    } else if p[i] == STAR && i + 1 < |p| && p[i + 1] == STAR {
      var end := i + 2;
      while end < |p| && p[end] == STAR
        invariant i + 2 <= end <= |p|
        invariant StarRun(p, i + 2) == StarRun(p, end)
      {
        end := end + 1;
      }
      if end < |p| && p[end] == SLASH {
        result := DecideSegments(p, v, i, j, end, memo);
      } else {
        result := DecideStar(p, v, i, j, end, memo);
      }
    } else if p[i] == STAR {
      result := DecideStar(p, v, i, j, i + 1, memo);
    } else {
      result := DecideOneByte(p, v, i, j, memo);
    }
  }

  method DecideSegments(p: seq<byte>, v: seq<byte>, i: nat, j: nat, end: nat, memo: array<Option<bool>>)
    returns (result: bool)
    requires i < end < |p| && j <= |v| && TokenAt(p, i) == (Segments, end + 1)
    requires MemoCorrect(p, v, memo)
    modifies memo
    ensures MemoCorrect(p, v, memo)
    ensures result <==> Matches(Tokens(p, i), v[j..])
    decreases |p| - i, |v| - j, 0
  {
    ghost var ts := Tokens(p, i);
    assert ts[1..] == Tokens(p, end + 1);
    SegmentsStep(ts, v, j);
    result := Search(p, v, end + 1, j, memo);
    if !result {
      result := SearchAfterSlashes(p, v, end + 1, j, memo);
    }
  }

  method SearchAfterSlashes(p: seq<byte>, v: seq<byte>, next: nat, j: nat, memo: array<Option<bool>>)
    returns (result: bool)
    requires next <= |p| && j <= |v|
    requires MemoCorrect(p, v, memo)
    modifies memo
    ensures MemoCorrect(p, v, memo)
    ensures result <==> AfterSomeSlash(Tokens(p, next), v, j)
    decreases |p| - next, |v| - j, 3
  {
    ghost var ts := Tokens(p, next);
    result := false;
    var index := j;
    while !result && index < |v|
      invariant j <= index <= |v|
      invariant MemoCorrect(p, v, memo)
      invariant result ==> AfterSomeSlash(ts, v, j)
      invariant !result ==> forall i :: j <= i < index ==> !AfterSlash(ts, v, i)
    {
      if v[index] == SLASH {
        result := Search(p, v, next, index + 1, memo);
        assert result <==> AfterSlash(ts, v, index);
      }
      index := index + 1;
    }
  }

  /** `*` and a bare run of stars differ only in whether they may cross a slash. */
  method DecideStar(p: seq<byte>, v: seq<byte>, i: nat, j: nat, end: nat, memo: array<Option<bool>>)
    returns (result: bool)
    requires i < end <= |p| && j <= |v|
    requires TokenAt(p, i) == (Star, end) || TokenAt(p, i) == (DoubleStar, end)
    requires MemoCorrect(p, v, memo)
    modifies memo
    ensures MemoCorrect(p, v, memo)
    ensures result <==> Matches(Tokens(p, i), v[j..])
    decreases |p| - i, |v| - j, 0
  {
    ghost var ts := Tokens(p, i);
    assert ts[1..] == Tokens(p, end);
    StarSteps(ts, v[j..]);
    result := Search(p, v, end, j, memo);
    if !result && j < |v| && (end > i + 1 || v[j] != SLASH) {
      assert v[j..][1..] == v[j + 1..];
      result := Search(p, v, i, j + 1, memo);
    }
  }

  method DecideOneByte(p: seq<byte>, v: seq<byte>, i: nat, j: nat, memo: array<Option<bool>>)
    returns (result: bool)
    requires i < |p| && j <= |v| && p[i] != STAR
    requires MemoCorrect(p, v, memo)
    modifies memo
    ensures MemoCorrect(p, v, memo)
    ensures result <==> Matches(Tokens(p, i), v[j..])
    decreases |p| - i, |v| - j, 0
  {
    ghost var ts := Tokens(p, i);
    assert ts[0] == TokenAt(p, i).0 && ts[1..] == Tokens(p, TokenAt(p, i).1);
    OneByteStep(ts, v[j..]);
    assert j < |v| ==> v[j..][1..] == v[j + 1..] && v[j..][..1] == [v[j]];
    var next := i + 1;
    if p[i] == QUESTION {
      result := j < |v| && v[j] != SLASH;
    } else {
      result := j < |v| && p[i] == v[j];
      if p[i] == OPEN {
        var bracket := ClassMatch(p, v, i, j);
        if bracket.Some? {
          next, result := bracket.value.0, bracket.value.1;
        }
      }
    }
    if result {
      result := Search(p, v, next, j + 1, memo);
    }
  }

  /** `glob_match`: for every pattern and value the memoised search decides
      exactly whether the pattern matches the value. */
  method GlobMatch(p: seq<byte>, v: seq<byte>) returns (result: bool)
    ensures result <==> PatternMatches(p, v)
  {
    var memo := new Option<bool>[(|p| + 1) * (|v| + 1)](_ => None);
    result := Search(p, v, 0, 0, memo);
    assert v[0..] == v;
  }
}
