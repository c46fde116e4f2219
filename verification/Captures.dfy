/** Publishing captures: each step adds all the objects that its capture
    expressions give to the variables, or nothing. */
module Captures {
  import opened Text
  import opened Json

  const MAX_CAPTURE_KEYS: nat := 256
  const MAX_CAPTURE_DEPTH: nat := 32
  const MAX_CAPTURE_BYTES: nat := 8388608
  const MAX_CAPTURE_TOTAL_BYTES: nat := 8388608

  type Vars = map<string, Json>

  // ---------- Depth ----------

  /** `value_depth_limited`: the walk gives up below `remaining` levels. */
  function Limited(v: Json, remaining: nat): nat
    decreases remaining, 0
  {
    if remaining == 0 then MAX_CAPTURE_DEPTH + 1
    else match v
         case Arr(items) => 1 + DeepestItem(items, remaining - 1)
         case Obj(members) => 1 + DeepestMember(v, SortedKeys(members.Keys), remaining - 1)
         case _ => 1
  }

  function DeepestItem(items: seq<Json>, remaining: nat): nat
    decreases remaining, |items| + 1
  {
    if items == [] then 0 else Max(Limited(items[0], remaining), DeepestItem(items[1..], remaining))
  }

  function DeepestMember(v: Json, keys: seq<string>, remaining: nat): nat
    requires v.Obj? && forall k :: k in keys ==> k in v.members
    decreases remaining, |keys| + 1
  {
    if keys == [] then 0
    else Max(Limited(v.members[keys[0]], remaining), DeepestMember(v, keys[1..], remaining))
  }

  function Max(a: nat, b: nat): nat {
    if a < b then b else a
  }

  /** No chain of nested values is longer than `d`. */
  ghost predicate Within(v: Json, d: nat)
    decreases d
  {
    && d >= 1
    && (v.Arr? ==> forall i :: 0 <= i < |v.items| ==> Within(v.items[i], d - 1))
    && (v.Obj? ==> forall k :: k in v.members ==> Within(v.members[k], d - 1))
  }

  lemma {:induction false} DeepestItemIs(items: seq<Json>, remaining: nat, d: nat)
    ensures DeepestItem(items, remaining) <= d
       <==> forall i :: 0 <= i < |items| ==> Limited(items[i], remaining) <= d
    decreases |items|
  {
    if items != [] {
      DeepestItemIs(items[1..], remaining, d);
      assert forall i :: 1 <= i < |items| ==> items[i] == items[1..][i - 1];
    }
  }

  lemma {:induction false} DeepestMemberIs(v: Json, keys: seq<string>, remaining: nat, d: nat)
    requires v.Obj? && forall k :: k in keys ==> k in v.members
    ensures DeepestMember(v, keys, remaining) <= d
       <==> forall k :: k in keys ==> Limited(v.members[k], remaining) <= d
    decreases |keys|
  {
    if keys != [] {
      DeepestMemberIs(v, keys[1..], remaining, d);
      assert keys == [keys[0]] + keys[1..];
    }
  }

  /** The walk and the definition agree on a value. */
  ghost predicate Agree(v: Json, remaining: nat, d: nat) {
    Limited(v, remaining) <= d <==> Within(v, d)
  }

  lemma {:induction false} AgreeItems(items: seq<Json>, remaining: nat, d: nat)
    requires forall i :: 0 <= i < |items| ==> Agree(items[i], remaining, d)
    ensures Agree(Arr(items), remaining + 1, d + 1)
  {
    DeepestItemIs(items, remaining, d);
  }

  lemma {:induction false} AgreeMembers(members: Vars, remaining: nat, d: nat)
    requires forall k :: k in members ==> Agree(members[k], remaining, d)
    ensures Agree(Obj(members), remaining + 1, d + 1)
  {
    DeepestMemberIs(Obj(members), SortedKeys(members.Keys), remaining, d);
  }

  lemma {:induction false} AgreeScalar(v: Json, remaining: nat, d: nat)
    requires !v.Arr? && !v.Obj?
    ensures Agree(v, remaining + 1, d + 1)
  {}

  lemma {:induction false} AgreeNothing(v: Json, remaining: nat)
    ensures Agree(v, remaining, 0)
  {}

  /** A walk that may go deep enough decides every depth it can reach. */
  lemma {:induction false} LimitedWithin(v: Json, remaining: nat, d: nat)
    requires d <= remaining
    ensures Agree(v, remaining, d)
    decreases remaining
  {
    if d == 0 {
      AgreeNothing(v, remaining);
    } else if v.Arr? {
      forall i | 0 <= i < |v.items|
        ensures Agree(v.items[i], remaining - 1, d - 1)
      {
        LimitedWithin(v.items[i], remaining - 1, d - 1);
      }
      AgreeItems(v.items, remaining - 1, d - 1);
    } else if v.Obj? {
      forall k | k in v.members
        ensures Agree(v.members[k], remaining - 1, d - 1)
      {
        LimitedWithin(v.members[k], remaining - 1, d - 1);
      }
      AgreeMembers(v.members, remaining - 1, d - 1);
    } else {
      AgreeScalar(v, remaining - 1, d - 1);
    }
  }

  /** The limited walk rejects exactly the values that are nested too deeply. */
  lemma {:induction false} DepthExact(v: Json)
    ensures Limited(v, MAX_CAPTURE_DEPTH + 1) > MAX_CAPTURE_DEPTH <==> !Within(v, MAX_CAPTURE_DEPTH)
  {
    LimitedWithin(v, MAX_CAPTURE_DEPTH + 1, MAX_CAPTURE_DEPTH);
  }

  // ---------- Sizes ----------

  /** The serialized size of a value. */
  function Size(v: Json): nat {
    ByteLen(Encode(v))
  }

  function Total(vars: Vars, keys: set<string>): nat
    requires keys <= vars.Keys
    decreases keys
  {
    if keys == {} then 0
    else
      var k := Least(keys);
      Size(vars[k]) + Total(vars, keys - {k})
  }

  function TotalSize(vars: Vars): nat {
    Total(vars, vars.Keys)
  }

  lemma {:induction false} TotalRemove(vars: Vars, keys: set<string>, k: string)
    requires keys <= vars.Keys && k in keys
    ensures Total(vars, keys) == Size(vars[k]) + Total(vars, keys - {k})
    decreases keys
  {
    var least := Least(keys);
    if k != least {
      TotalRemove(vars, keys - {least}, k);
      TotalRemove(vars, keys - {k}, least);
      assert keys - {least} - {k} == keys - {k} - {least};
    }
  }

  lemma {:induction false} TotalUnion(vars: Vars, a: set<string>, b: set<string>)
    requires a <= vars.Keys && b <= vars.Keys && a !! b
    ensures Total(vars, a + b) == Total(vars, a) + Total(vars, b)
    decreases b
  {
    if b == {} {
      assert a + b == a;
    } else {
      var k := Least(b);
      TotalRemove(vars, a + b, k);
      assert a + b - {k} == a + (b - {k});
      TotalUnion(vars, a, b - {k});
    }
  }

  lemma {:induction false} TotalAgree(x: Vars, y: Vars, keys: set<string>)
    requires keys <= x.Keys && keys <= y.Keys
    requires forall k :: k in keys ==> x[k] == y[k]
    ensures Total(x, keys) == Total(y, keys)
    decreases keys
  {
    if keys != {} {
      TotalAgree(x, y, keys - {Least(keys)});
    }
  }

  lemma {:induction false} TotalMerge(x: Vars, y: Vars)
    requires x.Keys !! y.Keys
    ensures TotalSize(x + y) == TotalSize(x) + TotalSize(y)
  {
    TotalUnion(x + y, x.Keys, y.Keys);
    TotalAgree(x, x + y, x.Keys);
    TotalAgree(y, x + y, y.Keys);
    assert (x + y).Keys == x.Keys + y.Keys;
  }

  lemma {:induction false} MemberSize(v: Json, key: string, rest: string)
    requires v.Obj? && key in v.members
    ensures ByteLen(EncodeMember(v, key) + rest) >= Size(v.members[key]) + ByteLen(rest)
  {
    Utf8Concat(EncodeMember(v, key), rest);
    Utf8Concat(EncodeString(key) + ":", Encode(v.members[key]));
  }

  lemma {:induction false} MembersSize(v: Json, keys: set<string>)
    requires v.Obj? && keys <= v.members.Keys
    ensures ByteLen(EncodeMembers(v, SortedKeys(keys))) >= Total(v.members, keys)
    decreases keys
  {
    if keys != {} {
      var k := Least(keys);
      var rest := SortedKeys(keys - {k});
      DropFirst(k, rest);
      MembersSize(v, keys - {k});
      if rest == [] {
        MemberSize(v, k, "");
        assert EncodeMember(v, k) + "" == EncodeMember(v, k);
      } else {
        MemberSize(v, k, "," + EncodeMembers(v, rest));
        Assoc(EncodeMember(v, k), ",", EncodeMembers(v, rest));
        Utf8Concat(",", EncodeMembers(v, rest));
      }
    }
  }

  /** The members of an object together are no larger than the object. */
  lemma {:induction false} ObjectSize(members: Vars)
    ensures TotalSize(members) <= Size(Obj(members))
  {
    var v := Obj(members);
    MembersSize(v, members.Keys);
    var inner := EncodeMembers(v, SortedKeys(members.Keys));
    Utf8Concat("{", inner);
    Utf8Concat("{" + inner, "}");
  }

  // ---------- Publishing ----------

  datatype Problem =
    | NotEvaluated
    | TooLarge
    | NotSerialized
    | NotAnObject
    | TooManyKeysOrTooDeep
    | TotalTooLarge
    | InvalidName(key: string)
    | Collision(key: string)

  /** What the loop over the captures has gathered. */
  datatype Pending = Pending(published: Vars, total: nat, problems: seq<Problem>)

  /** Evaluates an expression in the context of the step. */
  type Search = string -> Option<Json>

  predicate ValidName(name: string) {
    && name != [] && Letter(name[0]) && ByteLen(name) <= 64
    && forall i :: 1 <= i < |name| ==> Letter(name[i]) || IsDigit(name[i]) || name[i] == '_' || name[i] == '-'
  }

  function Report(p: Pending, problem: Problem): Pending {
    p.(problems := p.problems + [problem])
  }

  function AddKey(vars: Vars, p: Pending, key: string, value: Json): Pending {
    if !ValidName(key) then Report(p, InvalidName(key))
    else if key in vars || key in p.published then Report(p, Collision(key))
    else p.(published := p.published[key := value])
  }

  /** The first `n` keys of an object. */
  function AddKeys(vars: Vars, p: Pending, members: Vars, keys: seq<string>, n: nat): Pending
    requires n <= |keys| && forall k :: k in keys ==> k in members
  {
    if n == 0 then p else AddKey(vars, AddKeys(vars, p, members, keys, n - 1), keys[n - 1], members[keys[n - 1]])
  }

  function AddObject(vars: Vars, p: Pending, members: Vars, size: nat): Pending {
    if |members| > MAX_CAPTURE_KEYS || Limited(Obj(members), MAX_CAPTURE_DEPTH + 1) > MAX_CAPTURE_DEPTH
    then Report(p, TooManyKeysOrTooDeep)
    else if p.total + size > MAX_CAPTURE_TOTAL_BYTES then Report(p, TotalTooLarge)
    else AddMembers(vars, p.(total := p.total + size), members)
  }

  function AddMembers(vars: Vars, p: Pending, members: Vars): Pending {
    var keys := SortedKeys(members.Keys);
    AddKeys(vars, p, members, keys, |keys|)
  }

  function AddCapture(vars: Vars, p: Pending, result: Option<Json>): Pending {
    match result
    case None => Report(p, NotEvaluated)
    case Some(value) =>
      var serialized := Encode(value);
      if ByteLen(serialized) > MAX_CAPTURE_BYTES then Report(p, TooLarge)
      else match Decode(serialized)
           case None => Report(p, NotSerialized)
           case Some(json) =>
             if !json.Obj? then Report(p, NotAnObject)
             else AddObject(vars, p, json.members, ByteLen(serialized))
  }

  /** The first `n` captures. */
  function AddCaptures(vars: Vars, search: Search, captures: seq<string>, n: nat): Pending
    requires n <= |captures|
  {
    if n == 0 then Pending(map[], TotalSize(vars), [])
    else AddCapture(vars, AddCaptures(vars, search, captures, n - 1), search(captures[n - 1]))
  }

  /** The variables and the problems after publishing. */
  function Publish(vars: Vars, search: Search, captures: seq<string>): (Vars, seq<Problem>) {
    var p := AddCaptures(vars, search, captures, |captures|);
    (if p.problems == [] then vars + p.published else vars, p.problems)
  }

  // ---------- What publishing means ----------

  /** The object that a capture gives; none if it does not give one. */
  function Object(search: Search, capture: string): Vars {
    match search(capture)
    case Some(Obj(members)) => members
    case _ => map[]
  }

  predicate GivesObject(search: Search, capture: string) {
    search(capture).Some? && search(capture).value.Obj?
  }

  function Sizes(search: Search, captures: seq<string>, n: nat): nat
    requires n <= |captures|
  {
    if n == 0 then 0 else Sizes(search, captures, n - 1) + Size(Obj(Object(search, captures[n - 1])))
  }

  /** No earlier capture of the step defines the key. */
  ghost predicate Unclaimed(search: Search, captures: seq<string>, n: nat, key: string)
    requires n <= |captures|
  {
    forall i :: 0 <= i < n ==> key !in Object(search, captures[i])
  }

  /** The names that capture `i` defines are valid, and neither the variables
      nor an earlier capture define them. */
  ghost predicate NewNames(vars: Vars, search: Search, captures: seq<string>, i: nat)
    requires i < |captures|
  {
    forall k :: k in Object(search, captures[i]) ==>
                  ValidName(k) && k !in vars && Unclaimed(search, captures, i, k)
  }

  /** Capture `i` gives an object, within all limits and with new names. */
  ghost predicate Acceptable(vars: Vars, search: Search, captures: seq<string>, i: nat)
    requires i < |captures|
  {
    var members := Object(search, captures[i]);
    && GivesObject(search, captures[i])
    && Size(Obj(members)) <= MAX_CAPTURE_BYTES && |members| <= MAX_CAPTURE_KEYS
    && Within(Obj(members), MAX_CAPTURE_DEPTH)
    && TotalSize(vars) + Sizes(search, captures, i + 1) <= MAX_CAPTURE_TOTAL_BYTES
    && NewNames(vars, search, captures, i)
  }

  ghost predicate AllAcceptable(vars: Vars, search: Search, captures: seq<string>, n: nat)
    requires n <= |captures|
  {
    n > 0 ==> AllAcceptable(vars, search, captures, n - 1) && Acceptable(vars, search, captures, n - 1)
  }

  predicate KeyFree(vars: Vars, published: Vars, key: string) {
    ValidName(key) && key !in vars && key !in published
  }

  lemma {:induction false} ProblemsStay(vars: Vars, p: Pending, members: Vars, keys: seq<string>, n: nat)
    requires n <= |keys| && forall k :: k in keys ==> k in members
    requires p.problems != []
    ensures AddKeys(vars, p, members, keys, n).problems != []
  {
    if n > 0 {
      ProblemsStay(vars, p, members, keys, n - 1);
    }
  }

  /** The members under the first `n` keys. */
  function Taken(members: Vars, keys: seq<string>, n: nat): Vars
    requires n <= |keys| && forall k :: k in keys ==> k in members
  {
    if n == 0 then map[] else Taken(members, keys, n - 1)[keys[n - 1] := members[keys[n - 1]]]
  }

  lemma {:induction false} TakenKeys(members: Vars, keys: seq<string>, n: nat, key: string)
    requires n <= |keys| && forall k :: k in keys ==> k in members
    ensures key in Taken(members, keys, n) <==> exists j :: 0 <= j < n && keys[j] == key
    ensures key in Taken(members, keys, n) ==> key in members && Taken(members, keys, n)[key] == members[key]
  {
    if n > 0 {
      TakenKeys(members, keys, n - 1, key);
    }
  }

  lemma {:induction false} TakenAll(members: Vars)
    ensures var keys := SortedKeys(members.Keys);
            Taken(members, keys, |keys|) == members
  {
    var keys := SortedKeys(members.Keys);
    forall k
      ensures k in Taken(members, keys, |keys|) <==> k in members
      ensures k in members ==> Taken(members, keys, |keys|)[k] == members[k]
    {
      TakenKeys(members, keys, |keys|, k);
      assert k in members ==> k in keys;
    }
  }

  lemma MergeOne(a: Vars, b: Vars, k: string, v: Json)
    ensures (a + b)[k := v] == a + b[k := v]
  {}

  ghost predicate AllFree(vars: Vars, published: Vars, keys: seq<string>, n: nat)
    requires n <= |keys|
  {
    n > 0 ==> AllFree(vars, published, keys, n - 1) && KeyFree(vars, published, keys[n - 1])
  }

  lemma {:induction false} AllFreeAt(vars: Vars, published: Vars, keys: seq<string>, n: nat, j: nat)
    requires j < n <= |keys| && AllFree(vars, published, keys, n)
    ensures KeyFree(vars, published, keys[j])
  {
    if j < n - 1 {
      AllFreeAt(vars, published, keys, n - 1, j);
    }
  }

  lemma {:induction false} SomeNotFree(vars: Vars, published: Vars, keys: seq<string>, n: nat) returns (j: nat)
    requires n <= |keys| && !AllFree(vars, published, keys, n)
    ensures j < n && !KeyFree(vars, published, keys[j])
  {
    if AllFree(vars, published, keys, n - 1) {
      j := n - 1;
    } else {
      j := SomeNotFree(vars, published, keys, n - 1);
    }
  }

  /** One key more, after a clean pass over the keys before it. */
  lemma {:induction false} AddKeyExact(vars: Vars, p: Pending, members: Vars, keys: seq<string>, n: nat,
                                       before: Pending)
    requires n < |keys| && (forall k :: k in keys ==> k in members) && Distinct(keys)
    requires before.problems == [] && before.published == p.published + Taken(members, keys, n)
    ensures var after := AddKey(vars, before, keys[n], members[keys[n]]);
            && (after.problems == [] <==> KeyFree(vars, p.published, keys[n]))
            && (after.problems == [] ==> after.published == p.published + Taken(members, keys, n + 1))
  {
    TakenKeys(members, keys, n, keys[n]);
    MergeOne(p.published, Taken(members, keys, n), keys[n], members[keys[n]]);
  }

  /** A pass over the keys is clean exactly when every key is free, and then
      it adds exactly these keys. */
  lemma {:induction false} AddKeysExact(vars: Vars, p: Pending, members: Vars, keys: seq<string>, n: nat)
    requires n <= |keys| && (forall k :: k in keys ==> k in members) && Distinct(keys)
    requires p.problems == []
    ensures AddKeys(vars, p, members, keys, n).total == p.total
    ensures AddKeys(vars, p, members, keys, n).problems == [] <==> AllFree(vars, p.published, keys, n)
    ensures AddKeys(vars, p, members, keys, n).problems == [] ==>
              AddKeys(vars, p, members, keys, n).published == p.published + Taken(members, keys, n)
  {
    if n > 0 {
      var before := AddKeys(vars, p, members, keys, n - 1);
      AddKeysExact(vars, p, members, keys, n - 1);
      if before.problems == [] {
        AddKeyExact(vars, p, members, keys, n - 1, before);
      }
      assert AddKeys(vars, p, members, keys, n) == AddKey(vars, before, keys[n - 1], members[keys[n - 1]]);
    }
  }

  ghost predicate WithinLimits(p: Pending, members: Vars, size: nat) {
    && |members| <= MAX_CAPTURE_KEYS && Within(Obj(members), MAX_CAPTURE_DEPTH)
    && p.total + size <= MAX_CAPTURE_TOTAL_BYTES
  }

  ghost predicate MembersFree(vars: Vars, published: Vars, members: Vars) {
    forall k :: k in members ==> KeyFree(vars, published, k)
  }

  lemma {:induction false} AddMembersExact(vars: Vars, p: Pending, members: Vars)
    requires p.problems == []
    ensures AddMembers(vars, p, members).total == p.total
    ensures AddMembers(vars, p, members).problems == [] <==> MembersFree(vars, p.published, members)
    ensures AddMembers(vars, p, members).problems == [] ==>
              AddMembers(vars, p, members).published == p.published + members
  {
    var keys := SortedKeys(members.Keys);
    SortedKeysAscending(members.Keys);
    TakenAll(members);
    AddKeysExact(vars, p, members, keys, |keys|);
    FreeKeys(vars, p.published, members);
  }

  /** The object passes the limits and its members are added, or it does not. */
  lemma {:induction false} ObjectLimits(vars: Vars, p: Pending, members: Vars, size: nat) returns (after: Pending)
    ensures after == AddObject(vars, p, members, size)
    ensures WithinLimits(p, members, size) ==> after == AddMembers(vars, p.(total := p.total + size), members)
    ensures !WithinLimits(p, members, size) ==> after.problems != []
  {
    DepthExact(Obj(members));
    after := AddObject(vars, p, members, size);
  }

  lemma {:induction false} MembersAdded(vars: Vars, p: Pending, begun: Pending, members: Vars, size: nat,
                                        after: Pending)
    requires p.problems == [] && begun == p.(total := p.total + size)
    requires after == AddMembers(vars, begun, members)
    ensures after.problems == [] <==> MembersFree(vars, p.published, members)
    ensures after.problems == [] ==> after.published == p.published + members && after.total == p.total + size
  {
    AddMembersExact(vars, begun, members);
  }

  /** Adding an object to clean captures is clean exactly when it fits, and then
      the whole object is merged. */
  lemma {:induction false} AddObjectExact(vars: Vars, p: Pending, members: Vars, size: nat) returns (after: Pending)
    requires p.problems == []
    ensures after == AddObject(vars, p, members, size)
    ensures after.problems == [] <==> WithinLimits(p, members, size) && MembersFree(vars, p.published, members)
    ensures after.problems == [] ==> after.published == p.published + members && after.total == p.total + size
  {
    after := ObjectLimits(vars, p, members, size);
    if WithinLimits(p, members, size) {
      MembersAdded(vars, p, p.(total := p.total + size), members, size, after);
    }
  }

  lemma {:induction false} FreeKeys(vars: Vars, published: Vars, members: Vars)
    ensures var keys := SortedKeys(members.Keys);
            AllFree(vars, published, keys, |keys|) <==> MembersFree(vars, published, members)
  {
    var keys := SortedKeys(members.Keys);
    if AllFree(vars, published, keys, |keys|) {
      forall k | k in members
        ensures KeyFree(vars, published, k)
      {
        var j :| 0 <= j < |keys| && keys[j] == k;
        AllFreeAt(vars, published, keys, |keys|, j);
      }
    } else {
      var j := SomeNotFree(vars, published, keys, |keys|);
      assert keys[j] in members;
    }
  }

  /** Capture `capture` can be added to the clean captures `p`. */
  ghost predicate Addable(vars: Vars, p: Pending, search: Search, capture: string) {
    var members := Object(search, capture);
    && GivesObject(search, capture) && Size(Obj(members)) <= MAX_CAPTURE_BYTES
    && WithinLimits(p, members, Size(Obj(members)))
    && MembersFree(vars, p.published, members)
  }

  /** The text of a result reads back as the result. */
  lemma {:induction false} CaptureValue(vars: Vars, p: Pending, value: Json)
    ensures AddCapture(vars, p, Some(value)) ==
            if Size(value) > MAX_CAPTURE_BYTES then Report(p, TooLarge)
            else if !value.Obj? then Report(p, NotAnObject)
            else AddObject(vars, p, value.members, Size(value))
  {
    EncodeRoundTrip(value);
  }

  lemma {:induction false} AddCaptureExact(vars: Vars, p: Pending, search: Search, capture: string)
    returns (after: Pending)
    requires p.problems == []
    ensures after == AddCapture(vars, p, search(capture))
    ensures after.problems == [] <==> Addable(vars, p, search, capture)
    ensures after.problems == [] ==>
              && after.published == p.published + Object(search, capture)
              && after.total == p.total + Size(Obj(Object(search, capture)))
  {
    after := AddCapture(vars, p, search(capture));
    if search(capture).Some? {
      var value := search(capture).value;
      CaptureValue(vars, p, value);
      if value.Obj? {
        var _ := AddObjectExact(vars, p, value.members, Size(value));
      }
    }
  }

  // ---------- All captures of a step ----------

  /** The objects of the first `n` captures together. */
  function Merged(search: Search, captures: seq<string>, n: nat): Vars
    requires n <= |captures|
  {
    if n == 0 then map[] else Merged(search, captures, n - 1) + Object(search, captures[n - 1])
  }

  lemma {:induction false} MergedKeys(search: Search, captures: seq<string>, n: nat, key: string)
    requires n <= |captures|
    ensures key in Merged(search, captures, n) <==> !Unclaimed(search, captures, n, key)
  {
    if n > 0 {
      MergedKeys(search, captures, n - 1, key);
      assert Unclaimed(search, captures, n, key) <==>
             Unclaimed(search, captures, n - 1, key) && key !in Object(search, captures[n - 1]);
    }
  }

  function Clean(vars: Vars, search: Search, captures: seq<string>, n: nat): Pending
    requires n <= |captures|
  {
    Pending(Merged(search, captures, n), TotalSize(vars) + Sizes(search, captures, n), [])
  }

  lemma {:induction false} AcceptableAddable(vars: Vars, search: Search, captures: seq<string>, i: nat)
    requires i < |captures|
    ensures Acceptable(vars, search, captures, i)
       <==> Addable(vars, Clean(vars, search, captures, i), search, captures[i])
  {
    forall k
      ensures k in Merged(search, captures, i) <==> !Unclaimed(search, captures, i, k)
    {
      MergedKeys(search, captures, i, k);
    }
  }

  lemma {:induction false} ObjectProblemStays(vars: Vars, p: Pending, members: Vars, size: nat)
    requires p.problems != []
    ensures AddObject(vars, p, members, size).problems != []
  {
    MembersProblemStays(vars, p.(total := p.total + size), members);
  }

  lemma {:induction false} MembersProblemStays(vars: Vars, p: Pending, members: Vars)
    requires p.problems != []
    ensures AddMembers(vars, p, members).problems != []
  {
    var keys := SortedKeys(members.Keys);
    ProblemsStay(vars, p, members, keys, |keys|);
  }

  lemma {:induction false} ProblemStays(vars: Vars, p: Pending, result: Option<Json>)
    requires p.problems != []
    ensures AddCapture(vars, p, result).problems != []
  {
    if result.Some? {
      CaptureValue(vars, p, result.value);
      if result.value.Obj? {
        ObjectProblemStays(vars, p, result.value.members, Size(result.value));
      }
    }
  }

  lemma {:induction false} CaptureStep(vars: Vars, search: Search, captures: seq<string>, i: nat, after: Pending)
    requires i < |captures| && after == AddCapture(vars, Clean(vars, search, captures, i), search(captures[i]))
    ensures after.problems == [] <==> Acceptable(vars, search, captures, i)
    ensures after.problems == [] ==> after == Clean(vars, search, captures, i + 1)
  {
    AcceptableAddable(vars, search, captures, i);
    var _ := AddCaptureExact(vars, Clean(vars, search, captures, i), search, captures[i]);
  }

  /** The loop is clean exactly when every capture so far is acceptable, and
      then it has gathered exactly their objects. */
  lemma {:induction false} CapturesExact(vars: Vars, search: Search, captures: seq<string>, n: nat)
    requires n <= |captures|
    ensures AddCaptures(vars, search, captures, n).problems == [] <==> AllAcceptable(vars, search, captures, n)
    ensures AddCaptures(vars, search, captures, n).problems == [] ==>
              AddCaptures(vars, search, captures, n) == Clean(vars, search, captures, n)
  {
    if n > 0 {
      CapturesExact(vars, search, captures, n - 1);
      if AllAcceptable(vars, search, captures, n - 1) {
        CaptureStep(vars, search, captures, n - 1, AddCaptures(vars, search, captures, n));
      } else {
        ProblemStays(vars, AddCaptures(vars, search, captures, n - 1), search(captures[n - 1]));
      }
    }
  }

  /** A step publishes exactly when every capture is acceptable: all objects at
      once, or nothing at all. */
  lemma {:induction false} PublishExact(vars: Vars, search: Search, captures: seq<string>)
    ensures Publish(vars, search, captures).1 == [] <==> AllAcceptable(vars, search, captures, |captures|)
    ensures Publish(vars, search, captures).0 ==
            if AllAcceptable(vars, search, captures, |captures|)
            then vars + Merged(search, captures, |captures|)
            else vars
  {
    CapturesExact(vars, search, captures, |captures|);
  }

  ghost predicate AllNew(vars: Vars, search: Search, captures: seq<string>, n: nat)
    requires n <= |captures|
  {
    n > 0 ==>
      && AllNew(vars, search, captures, n - 1)
      && NewNames(vars, search, captures, n - 1) && GivesObject(search, captures[n - 1])
  }

  lemma {:induction false} AcceptableNew(vars: Vars, search: Search, captures: seq<string>, n: nat)
    requires n <= |captures| && AllAcceptable(vars, search, captures, n)
    ensures AllNew(vars, search, captures, n)
  {
    if n > 0 {
      AcceptableNew(vars, search, captures, n - 1);
      AcceptableLast(vars, search, captures, n);
    }
  }

  lemma {:induction false} AcceptableLast(vars: Vars, search: Search, captures: seq<string>, n: nat)
    requires 0 < n <= |captures| && AllAcceptable(vars, search, captures, n)
    ensures NewNames(vars, search, captures, n - 1) && GivesObject(search, captures[n - 1])
    ensures TotalSize(vars) + Sizes(search, captures, n) <= MAX_CAPTURE_TOTAL_BYTES
  {}

  /** Every name in `some` has the same value in `all`. */
  ghost predicate Bound(some: Vars, all: Vars) {
    forall k :: k in some ==> k in all && all[k] == some[k]
  }

  lemma {:induction false} MergedMembers(vars: Vars, search: Search, captures: seq<string>, n: nat, i: nat)
    requires i < n <= |captures| && AllNew(vars, search, captures, n)
    ensures Bound(Object(search, captures[i]), Merged(search, captures, n))
  {
    if i < n - 1 {
      MergedMembers(vars, search, captures, n - 1, i);
      assert NewNames(vars, search, captures, n - 1);
      assert forall k :: k in Object(search, captures[i]) ==> !Unclaimed(search, captures, n - 1, k);
    }
  }

  lemma {:induction false} AcceptableObject(vars: Vars, search: Search, captures: seq<string>, n: nat, i: nat)
    requires i < n <= |captures| && AllAcceptable(vars, search, captures, n)
    ensures GivesObject(search, captures[i])
  {
    AcceptableNew(vars, search, captures, n);
    NewObject(vars, search, captures, n, i);
  }

  lemma {:induction false} NewObject(vars: Vars, search: Search, captures: seq<string>, n: nat, i: nat)
    requires i < n <= |captures| && AllNew(vars, search, captures, n)
    ensures GivesObject(search, captures[i])
  {
    if i < n - 1 {
      NewObject(vars, search, captures, n - 1, i);
    }
  }

  lemma {:induction false} MergedApart(vars: Vars, search: Search, captures: seq<string>, n: nat)
    requires n <= |captures| && AllNew(vars, search, captures, n)
    ensures Merged(search, captures, n).Keys !! vars.Keys
  {
    if n > 0 {
      MergedApart(vars, search, captures, n - 1);
      assert NewNames(vars, search, captures, n - 1);
    }
  }

  lemma {:induction false} BoundMerge(vars: Vars, merged: Vars, some: Vars)
    requires merged.Keys !! vars.Keys && Bound(some, merged)
    ensures Bound(vars, vars + merged) && Bound(some, vars + merged)
  {}

  /** Publishing never rebinds a variable, and after a clean step every member
      of every capture is bound to its own value. */
  lemma {:induction false} PublishKeeps(vars: Vars, search: Search, captures: seq<string>)
    ensures var (after, problems) := Publish(vars, search, captures);
            && Bound(vars, after)
            && (problems == [] ==> forall i :: 0 <= i < |captures| ==> Bound(Object(search, captures[i]), after))
  {
    var n := |captures|;
    PublishExact(vars, search, captures);
    if AllAcceptable(vars, search, captures, n) {
      AcceptableNew(vars, search, captures, n);
      MergedApart(vars, search, captures, n);
      BoundMerge(vars, Merged(search, captures, n), map[]);
      forall i | 0 <= i < n
        ensures Bound(Object(search, captures[i]), vars + Merged(search, captures, n))
      {
        MergedMembers(vars, search, captures, n, i);
        BoundMerge(vars, Merged(search, captures, n), Object(search, captures[i]));
      }
    }
  }

  lemma {:induction false} MergedSize(vars: Vars, search: Search, captures: seq<string>, n: nat)
    requires n <= |captures| && AllNew(vars, search, captures, n)
    ensures TotalSize(Merged(search, captures, n)) <= Sizes(search, captures, n)
  {
    if n > 0 {
      var members := Object(search, captures[n - 1]);
      MergedSize(vars, search, captures, n - 1);
      assert NewNames(vars, search, captures, n - 1);
      ObjectSize(members);
      forall k | k in members
        ensures k !in Merged(search, captures, n - 1)
      {
        MergedKeys(search, captures, n - 1, k);
      }
      TotalMerge(Merged(search, captures, n - 1), members);
    }
  }

  /** After a step that publishes, all variables together fit the limit. */
  lemma {:induction false} PublishSize(vars: Vars, search: Search, captures: seq<string>)
    requires captures != [] && Publish(vars, search, captures).1 == []
    ensures TotalSize(Publish(vars, search, captures).0) <= MAX_CAPTURE_TOTAL_BYTES
  {
    var n := |captures|;
    PublishExact(vars, search, captures);
    AcceptableNew(vars, search, captures, n);
    AcceptableLast(vars, search, captures, n);
    MergedApart(vars, search, captures, n);
    MergedSize(vars, search, captures, n);
    TotalMerge(vars, Merged(search, captures, n));
  }

  // ---------- The program ----------

  method TotalBytes(vars: Vars) returns (total: nat)
    ensures total == TotalSize(vars)
  {
    total := 0;
    var rest := vars.Keys;
    while rest != {}
      invariant rest <= vars.Keys && total + Total(vars, rest) == TotalSize(vars)
      decreases rest
    {
      var k := Least(rest);
      total := total + Size(vars[k]);
      rest := rest - {k};
    }
  }

  /** The variables of a run, changed in place by the steps that publish. */
  class Variables {
    var values: Vars

    constructor (initial: Vars)
      ensures values == initial
    {
      values := initial;
    }

    method PublishCaptures(search: Search, captures: seq<string>) returns (problems: seq<Problem>)
      modifies this
      ensures (values, problems) == Publish(old(values), search, captures)
    {
      var total := TotalBytes(values);
      var pending := Pending(map[], total, []);
      for i := 0 to |captures|
        invariant values == old(values)
        invariant pending == AddCaptures(values, search, captures, i)
      {
        pending := GatherCapture(values, pending, search(captures[i]));
      }
      problems := pending.problems;
      if problems == [] {
        values := values + pending.published;
      }
    }
  }

  /** One turn of the loop over the captures. */
  method GatherCapture(vars: Vars, p: Pending, result: Option<Json>) returns (r: Pending)
    ensures r == AddCapture(vars, p, result)
  {
    if result.None? {
      return Report(p, NotEvaluated);
    }
    var serialized := Encode(result.value);
    if ByteLen(serialized) > MAX_CAPTURE_BYTES {
      return Report(p, TooLarge);
    }
    var json := Decode(serialized);
    if json.None? {
      return Report(p, NotSerialized);
    }
    if !json.value.Obj? {
      return Report(p, NotAnObject);
    }
    r := GatherObject(vars, p, json.value.members, ByteLen(serialized));
  }

  method GatherObject(vars: Vars, p: Pending, members: Vars, size: nat) returns (r: Pending)
    ensures r == AddObject(vars, p, members, size)
  {
    if |members| > MAX_CAPTURE_KEYS || Limited(Obj(members), MAX_CAPTURE_DEPTH + 1) > MAX_CAPTURE_DEPTH {
      return Report(p, TooManyKeysOrTooDeep);
    }
    if p.total + size > MAX_CAPTURE_TOTAL_BYTES {
      return Report(p, TotalTooLarge);
    }
    r := GatherMembers(vars, p.(total := p.total + size), members);
  }

  method GatherMembers(vars: Vars, p: Pending, members: Vars) returns (r: Pending)
    ensures r == AddMembers(vars, p, members)
  {
    var keys := SortedKeys(members.Keys);
    r := p;
    for i := 0 to |keys|
      invariant r == AddKeys(vars, p, members, keys, i)
    {
      var key := keys[i];
      if !ValidName(key) {
        r := Report(r, InvalidName(key));
      } else if key in vars || key in r.published {
        r := Report(r, Collision(key));
      } else {
        r := r.(published := r.published[key := members[key]]);
      }
    }
  }
}
