/** Finding the Markdown documents below a directory: gitignore rules decided
    by the last match, and a directory walk that prunes ignored directories. */
module Discovery {
  import opened Text
  import opened Glob

  type Name = seq<byte>

  /** A path below the root, one name per component; the root itself is empty. */
  type Path = seq<Name>

  datatype Rule = Rule(negated: bool, directoryOnly: bool, pattern: seq<byte>)

  /** The parsed rules of each readable ignore file, by directory. */
  type IgnoreFiles = map<Path, seq<Rule>>

  datatype Node = File(name: Name) | Dir(name: Name, children: seq<Node>)

  // ---------- Rules ----------

  ghost predicate RuleMatches(rule: Rule, relative: seq<byte>, isDirectory: bool) {
    && (rule.directoryOnly ==> isDirectory)
    && if SLASH in rule.pattern then PatternMatches(rule.pattern, relative)
       else SomeComponentMatches(rule.pattern, Split(relative, SLASH))
  }

  ghost predicate SomeComponentMatches(pattern: seq<byte>, components: seq<seq<byte>>) {
    exists i :: 0 <= i < |components| && PatternMatches(pattern, components[i])
  }

  /** The last rule that matches decides; without one, nothing is ignored. */
  ghost predicate LastMatchIgnores(rules: seq<Rule>, relative: seq<byte>, isDirectory: bool, before: bool) {
    if rules == [] then before
    else if RuleMatches(rules[|rules| - 1], relative, isDirectory) then !rules[|rules| - 1].negated
    else LastMatchIgnores(rules[..|rules| - 1], relative, isDirectory, before)
  }

  function RulesIn(files: IgnoreFiles, directory: Path): seq<Rule> {
    if directory in files then files[directory] else []
  }

  /** The verdict after the ignore files of the first `k` directories on the
      way to `path`, each read relative to its own directory. */
  ghost predicate StateAfter(files: IgnoreFiles, path: Path, k: nat, isDirectory: bool)
    requires k <= |path|
  {
    if k == 0 then false
    else LastMatchIgnores(RulesIn(files, path[..k - 1]), Join(path[k - 1..], SLASH), isDirectory,
                          StateAfter(files, path, k - 1, isDirectory))
  }

  ghost predicate PathState(files: IgnoreFiles, path: Path, isDirectory: bool) {
    StateAfter(files, path, |path|, isDirectory)
  }

  /** Some directory above `path`, below the root, is ignored. */
  ghost predicate AncestorIgnored(files: IgnoreFiles, path: Path, isDirectory: bool) {
    exists k :: 1 <= k < |path| && PathState(files, path[..k], isDirectory)
  }

  ghost predicate Ignored(files: IgnoreFiles, path: Path) {
    path != [] && (AncestorIgnored(files, path, true) || PathState(files, path, false))
  }

  /** `under` has the ignore files of `files` below the directory `d`, and no
      other. */
  ghost predicate Moved(files: IgnoreFiles, d: Path, under: IgnoreFiles) {
    forall q: Path :: SameRules(files, d, under, q)
  }

  ghost predicate SameRules(files: IgnoreFiles, d: Path, under: IgnoreFiles, q: Path) {
    RulesIn(under, d + q) == RulesIn(files, q)
  }

  ghost predicate NothingAbove(under: IgnoreFiles, d: Path) {
    forall k :: 0 <= k < |d| ==> d[..k] !in under
  }

  /** The fold over the ignore files works with any way of deciding by rules. */
  type Decider = (seq<Rule>, seq<byte>, bool) -> bool

  ghost predicate Fold(decide: Decider, files: IgnoreFiles, path: Path, k: nat)
    requires k <= |path|
  {
    k > 0 && decide(RulesIn(files, path[..k - 1]), Join(path[k - 1..], SLASH), Fold(decide, files, path, k - 1))
  }

  ghost function ByLastMatch(isDirectory: bool): Decider {
    (rules, relative, before) => LastMatchIgnores(rules, relative, isDirectory, before)
  }

  lemma {:induction false} StateIsFold(files: IgnoreFiles, path: Path, k: nat, isDirectory: bool)
    requires k <= |path|
    ensures StateAfter(files, path, k, isDirectory) == Fold(ByLastMatch(isDirectory), files, path, k)
  {
    if k > 0 {
      StateIsFold(files, path, k - 1, isDirectory);
    }
  }

  ghost predicate Passes(decide: Decider) {
    forall relative, before :: decide([], relative, before) == before
  }

  lemma {:induction false} NoRulesAbove(decide: Decider, under: IgnoreFiles, d: Path, p: Path, k: nat)
    requires Passes(decide) && NothingAbove(under, d) && k <= |d|
    ensures !Fold(decide, under, d + p, k)
  {
    if k > 0 {
      NoRulesAbove(decide, under, d, p, k - 1);
      assert (d + p)[..k - 1] == d[..k - 1];
    }
  }

  lemma {:induction false} MovedFold(decide: Decider, files: IgnoreFiles, d: Path, under: IgnoreFiles, p: Path, k: nat)
    requires Passes(decide) && Moved(files, d, under) && NothingAbove(under, d) && k <= |p|
    ensures Fold(decide, under, d + p, |d| + k) == Fold(decide, files, p, k)
  {
    if k == 0 {
      NoRulesAbove(decide, under, d, p, |d|);
    } else {
      var q := d + p;
      var rules, relative := RulesIn(files, p[..k - 1]), Join(p[k - 1..], SLASH);
      MovedFold(decide, files, d, under, p, k - 1);
      CutBelow(d, p, k - 1, q);
      assert SameRules(files, d, under, p[..k - 1]);
      FoldStep(decide, files, p, k, rules, relative);
      FoldStep(decide, under, q, |d| + k, rules, relative);
    }
  }

  lemma CutBelow(d: Path, p: Path, k: nat, q: Path)
    requires k <= |p| && q == d + p
    ensures q[..|d| + k] == d + p[..k] && q[|d| + k..] == p[k..]
  {}

  lemma {:induction false} FoldStep(decide: Decider, files: IgnoreFiles, path: Path, k: nat, rules: seq<Rule>,
                                    relative: seq<byte>)
    requires 0 < k <= |path| && rules == RulesIn(files, path[..k - 1]) && relative == Join(path[k - 1..], SLASH)
    ensures Fold(decide, files, path, k) == decide(rules, relative, Fold(decide, files, path, k - 1))
  {}

  /** An ignore file speaks of the paths below its own directory: moved below
      another directory together with everything it speaks of, it decides in
      the same way. */
  lemma {:induction false} MovedRules(files: IgnoreFiles, d: Path, under: IgnoreFiles, p: Path, isDirectory: bool)
    requires Moved(files, d, under) && NothingAbove(under, d)
    ensures PathState(under, d + p, isDirectory) == PathState(files, p, isDirectory)
  {
    StateIsFold(under, d + p, |d + p|, isDirectory);
    StateIsFold(files, p, |p|, isDirectory);
    MovedFold(ByLastMatch(isDirectory), files, d, under, p, |p|);
  }

  // ---------- The code that decides them ----------

  method GitignoreRuleMatches(rule: Rule, relative: seq<byte>, isDirectory: bool) returns (r: bool)
    ensures r <==> RuleMatches(rule, relative, isDirectory)
  {
    if rule.directoryOnly && !isDirectory {
      return false;
    }
    if SLASH in rule.pattern {
      r := GlobMatch(rule.pattern, relative);
    } else {
      var components := Split(relative, SLASH);
      r := false;
      var i := 0;
      while !r && i < |components|
        invariant 0 <= i <= |components|
        invariant r ==> SomeComponentMatches(rule.pattern, components)
        invariant !r ==> forall j :: 0 <= j < i ==> !PatternMatches(rule.pattern, components[j])
      {
        r := GlobMatch(rule.pattern, components[i]);
        i := i + 1;
      }
    }
  }

  method IgnoredPathState(files: IgnoreFiles, path: Path, isDirectory: bool) returns (ignored: bool)
    ensures ignored <==> PathState(files, path, isDirectory)
  {
    ignored := false;
    for k := 0 to |path|
      invariant ignored <==> StateAfter(files, path, k, isDirectory)
    {
      var rules := RulesIn(files, path[..k]);
      var relative := Join(path[k..], SLASH);
      ghost var before := ignored;
      for i := 0 to |rules|
        invariant ignored <==> LastMatchIgnores(rules[..i], relative, isDirectory, before)
      {
        assert rules[..i + 1][..i] == rules[..i];
        var matched := GitignoreRuleMatches(rules[i], relative, isDirectory);
        if matched {
          ignored := !rules[i].negated;
        }
      }
      assert rules[..|rules|] == rules;
    }
  }

  method IgnoredByGitignore(files: IgnoreFiles, path: Path) returns (ignored: bool)
    ensures ignored <==> Ignored(files, path)
  {
    if path == [] {
      return false;
    }
    var k := |path| - 1;
    while k > 0
      invariant 0 <= k < |path|
      invariant forall j :: k < j < |path| ==> !PathState(files, path[..j], true)
    {
      var above := IgnoredPathState(files, path[..k], true);
      if above {
        return true;
      }
      k := k - 1;
    }
    ignored := IgnoredPathState(files, path, false);
  }

  // ---------- The walk ----------

  /** The name ends with the ASCII text `s`. */
  predicate EndsWith(name: Name, s: string) {
    |s| <= |name| && forall i :: 0 <= i < |s| ==> name[|name| - |s| + i] == s[i] as int
  }

  predicate IsName(name: Name, s: string) {
    |name| == |s| && EndsWith(name, s)
  }

  predicate IsDocument(name: Name) {
    EndsWith(name, ".md") || EndsWith(name, ".mdok.md")
  }

  /** Directories that are never entered, whatever the ignore files say. */
  predicate FixedSkip(name: Name) {
    || (name != [] && name[0] == '.' as int)
    || IsName(name, "target") || IsName(name, ".git") || IsName(name, "node_modules") || IsName(name, "vendor")
  }

  /** The walk of the program: an ignored directory is not entered, and the
      test applied to a directory is the one for files. */
  ghost function PrunedWalk(files: IgnoreFiles, prefix: Path, nodes: seq<Node>): seq<Path>
    decreases nodes
  {
    if nodes == [] then []
    else PrunedNode(files, prefix, nodes[0]) + PrunedWalk(files, prefix, nodes[1..])
  }

  ghost function PrunedNode(files: IgnoreFiles, prefix: Path, node: Node): seq<Path>
    decreases node
  {
    var path := prefix + [node.name];
    match node
    case File(name) => if !Ignored(files, path) && IsDocument(name) then [path] else []
    case Dir(name, children) =>
      if Ignored(files, path) || FixedSkip(name) then [] else PrunedWalk(files, path, children)
  }

  /** The documents of a walk that knows no ignore files. */
  function AllDocuments(prefix: Path, nodes: seq<Node>): seq<Path>
    decreases nodes
  {
    if nodes == [] then [] else DocumentsOf(prefix, nodes[0]) + AllDocuments(prefix, nodes[1..])
  }

  function DocumentsOf(prefix: Path, node: Node): seq<Path>
    decreases node
  {
    var path := prefix + [node.name];
    match node
    case File(name) => if IsDocument(name) then [path] else []
    case Dir(name, children) => if FixedSkip(name) then [] else AllDocuments(path, children)
  }

  /** A directory above `path` that the walk refuses to enter. */
  ghost predicate PrunedAbove(files: IgnoreFiles, path: Path) {
    AncestorIgnored(files, path, false)
  }

  /** The documents whose own ignore test lets them through; `strict` also asks
      that no directory above them is pruned. */
  ghost function Visible(files: IgnoreFiles, documents: seq<Path>, strict: bool): seq<Path> {
    if documents == [] then []
    else OneVisible(files, documents[0], strict) + Visible(files, documents[1..], strict)
  }

  ghost function OneVisible(files: IgnoreFiles, document: Path, strict: bool): seq<Path> {
    if !Ignored(files, document) && (strict ==> !PrunedAbove(files, document)) then [document] else []
  }

  method Discover(files: IgnoreFiles, prefix: Path, nodes: seq<Node>) returns (found: seq<Path>)
    ensures found == PrunedWalk(files, prefix, nodes)
    decreases nodes
  {
    if nodes == [] {
      return [];
    }
    var path := prefix + [nodes[0].name];
    var ignored := IgnoredByGitignore(files, path);
    found := [];
    match nodes[0] {
      case File(name) =>
        if !ignored && IsDocument(name) {
          found := [path];
        }
      case Dir(name, children) =>
        if !ignored && !FixedSkip(name) {
          found := Discover(files, path, children);
        }
    }
    assert found == PrunedNode(files, prefix, nodes[0]);
    var rest := Discover(files, prefix, nodes[1..]);
    found := found + rest;
  }

  // ---------- What pruning leaves out ----------

  ghost predicate Below(prefix: Path, path: Path) {
    |prefix| < |path| && path[..|prefix|] == prefix
  }

  lemma {:induction false} DocumentsBelow(prefix: Path, nodes: seq<Node>)
    ensures forall d :: d in AllDocuments(prefix, nodes) ==> Below(prefix, d)
    decreases nodes
  {
    if nodes != [] {
      DocumentsBelow(prefix, nodes[1..]);
      if nodes[0].Dir? {
        var path := prefix + [nodes[0].name];
        DocumentsBelow(path, nodes[0].children);
        assert path[..|prefix|] == prefix;
        forall d | Below(path, d)
          ensures Below(prefix, d)
        {
          assert d[..|path|][..|prefix|] == d[..|prefix|];
        }
      }
    }
  }

  /** Nothing below an ignored directory is strictly visible. */
  lemma {:induction false} NothingBelowIgnored(files: IgnoreFiles, directory: Path, d: Path)
    requires Ignored(files, directory) && Below(directory, d)
    ensures Ignored(files, d) || PrunedAbove(files, d)
  {
    if AncestorIgnored(files, directory, true) {
      var k :| 1 <= k < |directory| && PathState(files, directory[..k], true);
      assert d[..k] == d[..|directory|][..k];
    } else {
      assert PathState(files, d[..|directory|], false);
    }
  }

  lemma {:induction false} NothingVisible(files: IgnoreFiles, directory: Path, documents: seq<Path>)
    requires Ignored(files, directory)
    requires forall d :: d in documents ==> Below(directory, d)
    ensures Visible(files, documents, true) == []
  {
    if documents != [] {
      NothingBelowIgnored(files, directory, documents[0]);
      NothingVisible(files, directory, documents[1..]);
    }
  }

  lemma {:induction false} VisibleConcat(files: IgnoreFiles, a: seq<Path>, b: seq<Path>, strict: bool)
    ensures Visible(files, a + b, strict) == Visible(files, a, strict) + Visible(files, b, strict)
  {
    if a == [] {
      assert a + b == b;
    } else {
      var first := OneVisible(files, a[0], strict);
      assert (a + b)[1..] == a[1..] + b && (a + b)[0] == a[0];
      VisibleConcat(files, a[1..], b, strict);
      Assoc(first, Visible(files, a[1..], strict), Visible(files, b, strict));
    }
  }

  /** No directory on the way to `prefix` is pruned. */
  ghost predicate Open(files: IgnoreFiles, prefix: Path) {
    forall k :: 1 <= k <= |prefix| ==> !PathState(files, prefix[..k], false)
  }

  /** The pruned walk is a filter of the plain walk: the file test, together
      with the demand that no directory above was pruned. */
  lemma {:induction false} PrunedWalkFilters(files: IgnoreFiles, prefix: Path, nodes: seq<Node>)
    requires Open(files, prefix)
    ensures PrunedWalk(files, prefix, nodes) == Visible(files, AllDocuments(prefix, nodes), true)
    decreases nodes
  {
    if nodes != [] {
      PrunedNodeFilters(files, prefix, nodes[0]);
      PrunedWalkFilters(files, prefix, nodes[1..]);
      VisibleConcat(files, DocumentsOf(prefix, nodes[0]), AllDocuments(prefix, nodes[1..]), true);
    }
  }

  lemma {:induction false} PrunedNodeFilters(files: IgnoreFiles, prefix: Path, node: Node)
    requires Open(files, prefix)
    ensures PrunedNode(files, prefix, node) == Visible(files, DocumentsOf(prefix, node), true)
    decreases node
  {
    var path := prefix + [node.name];
    assert forall k :: 1 <= k < |path| ==> path[..k] == prefix[..k];
    match node {
      case File(name) =>
        assert !PrunedAbove(files, path);
      case Dir(name, children) =>
        if Ignored(files, path) {
          DocumentsBelow(path, children);
          NothingVisible(files, path, AllDocuments(path, children));
        } else {
          assert path[..|path|] == path;
          PrunedWalkFilters(files, path, children);
        }
    }
  }

  // ---------- When pruning loses nothing ----------

  lemma {:induction false} StrictnessMatters(files: IgnoreFiles, documents: seq<Path>)
    ensures |Visible(files, documents, true)| <= |Visible(files, documents, false)|
    ensures Visible(files, documents, true) == Visible(files, documents, false)
            <==> forall d :: d in documents && !Ignored(files, d) ==> !PrunedAbove(files, d)
  {
    if documents != [] {
      StrictnessMatters(files, documents[1..]);
      var head, tail := documents[0], documents[1..];
      assert forall d :: d in documents <==> d == head || d in tail;
      if !Ignored(files, head) && !PrunedAbove(files, head) {
        assert ([head] + Visible(files, tail, true))[1..] == Visible(files, tail, true);
        assert ([head] + Visible(files, tail, false))[1..] == Visible(files, tail, false);
      } else if Ignored(files, head) {
        assert Visible(files, documents, true) == Visible(files, tail, true);
        assert Visible(files, documents, false) == Visible(files, tail, false);
      } else {
        assert Visible(files, documents, true) == Visible(files, tail, true);
        assert |Visible(files, documents, false)| == 1 + |Visible(files, tail, false)|;
      }
    }
  }

  /** Pruning agrees with filtering exactly when no document that passes its
      own ignore test lies below a directory that the file test ignores. */
  lemma PruningExact(files: IgnoreFiles, nodes: seq<Node>)
    ensures PrunedWalk(files, [], nodes) == Visible(files, AllDocuments([], nodes), false)
            <==> forall d :: d in AllDocuments([], nodes) && !Ignored(files, d) ==> !PrunedAbove(files, d)
  {
    PrunedWalkFilters(files, [], nodes);
    StrictnessMatters(files, AllDocuments([], nodes));
  }

  // ---------- Every tree ----------

  /** A document that some tree can have: its name is a document's, and no
      directory above it is one that is never entered. */
  predicate DocumentPath(d: Path) {
    && d != [] && IsDocument(d[|d| - 1])
    && forall k :: 0 <= k < |d| - 1 ==> !FixedSkip(d[k])
  }

  predicate EnteredPath(prefix: Path) {
    forall k :: 0 <= k < |prefix| ==> !FixedSkip(prefix[k])
  }

  lemma {:induction false} PathSnoc(prefix: Path, name: Name)
    requires EnteredPath(prefix)
    ensures IsDocument(name) ==> DocumentPath(prefix + [name])
    ensures !FixedSkip(name) ==> EnteredPath(prefix + [name])
  {}

  lemma {:induction false} DocumentsArePaths(prefix: Path, nodes: seq<Node>, d: Path)
    requires EnteredPath(prefix) && d in AllDocuments(prefix, nodes)
    ensures DocumentPath(d)
    decreases nodes
  {
    if d in AllDocuments(prefix, nodes[1..]) {
      DocumentsArePaths(prefix, nodes[1..], d);
    } else {
      NodeDocument(prefix, nodes[0], d);
    }
  }

  lemma {:induction false} NodeDocument(prefix: Path, node: Node, d: Path)
    requires EnteredPath(prefix) && d in DocumentsOf(prefix, node)
    ensures DocumentPath(d)
    decreases node
  {
    PathSnoc(prefix, node.name);
    if node.Dir? {
      DocumentsArePaths(prefix + [node.name], node.children, d);
    }
  }

  /** The tree that has nothing but the document `d` below its first `i` names. */
  function Branch(d: Path, i: nat): Node
    requires i < |d|
    decreases |d| - i
  {
    if i == |d| - 1 then File(d[i]) else Dir(d[i], [Branch(d, i + 1)])
  }

  lemma {:induction false} OneNode(prefix: Path, node: Node)
    ensures AllDocuments(prefix, [node]) == DocumentsOf(prefix, node)
  {
    assert [node][1..] == [];
    assert DocumentsOf(prefix, node) + [] == DocumentsOf(prefix, node);
  }

  lemma {:induction false} BranchDocuments(d: Path, i: nat)
    requires DocumentPath(d) && i < |d|
    ensures AllDocuments(d[..i], [Branch(d, i)]) == [d]
    decreases |d| - i
  {
    OneNode(d[..i], Branch(d, i));
    BranchStep(d, i);
    if i < |d| - 1 {
      BranchDocuments(d, i + 1);
    }
  }

  lemma {:induction false} BranchStep(d: Path, i: nat)
    requires DocumentPath(d) && i < |d|
    ensures DocumentsOf(d[..i], Branch(d, i)) ==
            if i == |d| - 1 then [d] else AllDocuments(d[..i + 1], [Branch(d, i + 1)])
  {
    assert d[..i] + [d[i]] == d[..i + 1];
    if i == |d| - 1 {
      assert d[..i + 1] == d;
    }
  }

  ghost predicate AgreesOn(files: IgnoreFiles, nodes: seq<Node>) {
    PrunedWalk(files, [], nodes) == Visible(files, AllDocuments([], nodes), false)
  }

  /** Pruning loses no document at this path. */
  ghost predicate NotLost(files: IgnoreFiles, d: Path) {
    !Ignored(files, d) ==> !PrunedAbove(files, d)
  }

  lemma {:induction false} AgreesOnBranch(files: IgnoreFiles, d: Path)
    requires DocumentPath(d) && AgreesOn(files, [Branch(d, 0)])
    ensures NotLost(files, d)
  {
    assert d[..0] == [];
    BranchDocuments(d, 0);
    PruningExact(files, [Branch(d, 0)]);
    assert d in AllDocuments([], [Branch(d, 0)]);
  }

  /** For given ignore files the two walks agree on every tree exactly when the
      rules lose no document path. */
  lemma {:induction false} PruningOnEveryTree(files: IgnoreFiles)
    ensures (forall nodes :: AgreesOn(files, nodes)) <==> forall d :: DocumentPath(d) ==> NotLost(files, d)
  {
    if forall nodes :: AgreesOn(files, nodes) {
      forall d | DocumentPath(d)
        ensures NotLost(files, d)
      {
        AgreesOnBranch(files, d);
      }
    }
    if forall d :: DocumentPath(d) ==> NotLost(files, d) {
      forall nodes
        ensures AgreesOn(files, nodes)
      {
        PruningExact(files, nodes);
        forall d | d in AllDocuments([], nodes)
          ensures NotLost(files, d)
        {
          DocumentsArePaths([], nodes, d);
        }
      }
    }
  }

  ghost predicate NoNegatedDirectoryRule(files: IgnoreFiles) {
    forall directory, i :: directory in files && 0 <= i < |files[directory]|
      ==> !(files[directory][i].negated && files[directory][i].directoryOnly)
  }

  lemma {:induction false} DirectoryTestIgnoresMore(rules: seq<Rule>, relative: seq<byte>, fileBefore: bool,
                                                    dirBefore: bool)
    requires forall i :: 0 <= i < |rules| ==> !(rules[i].negated && rules[i].directoryOnly)
    requires fileBefore ==> dirBefore
    requires LastMatchIgnores(rules, relative, false, fileBefore)
    ensures LastMatchIgnores(rules, relative, true, dirBefore)
  {
    if rules != [] {
      var last := rules[|rules| - 1];
      if !RuleMatches(last, relative, true) {
        DirectoryTestIgnoresMore(rules[..|rules| - 1], relative, fileBefore, dirBefore);
      }
    }
  }

  lemma {:induction false} DirectoryStateIgnoresMore(files: IgnoreFiles, path: Path, k: nat)
    requires NoNegatedDirectoryRule(files) && k <= |path|
    requires StateAfter(files, path, k, false)
    ensures StateAfter(files, path, k, true)
  {
    var rules := RulesIn(files, path[..k - 1]);
    var relative := Join(path[k - 1..], SLASH);
    if StateAfter(files, path, k - 1, false) {
      DirectoryStateIgnoresMore(files, path, k - 1);
    }
    DirectoryTestIgnoresMore(rules, relative, StateAfter(files, path, k - 1, false),
                             StateAfter(files, path, k - 1, true));
  }

  /** Without a rule that is both negated and directory-only, the pruned walk
      finds exactly the documents that the per-file ignore test lets through. */
  lemma PruningIsFiltering(files: IgnoreFiles, nodes: seq<Node>)
    requires NoNegatedDirectoryRule(files)
    ensures PrunedWalk(files, [], nodes) == Visible(files, AllDocuments([], nodes), false)
  {
    var documents := AllDocuments([], nodes);
    forall d | d in documents && PrunedAbove(files, d)
      ensures Ignored(files, d)
    {
      var k :| 1 <= k < |d| && PathState(files, d[..k], false);
      DirectoryStateIgnoresMore(files, d[..k], k);
      assert AncestorIgnored(files, d, true);
    }
    PruningExact(files, nodes);
  }

  // ---------- A negated directory rule does lose documents ----------

  lemma SimplePattern()
    ensures Tokens([97, SLASH, 98], 0) == [Exactly(97), Exactly(SLASH), Exactly(98)]
  {
    var p: seq<byte> := [97, SLASH, 98];
    assert Tokens(p, 3) == [];
    assert Tokens(p, 2) == [Exactly(98)];
    assert Tokens(p, 1) == [Exactly(SLASH), Exactly(98)];
  }

  /** `a/b` matches the text `a/b` and nothing longer or shorter. */
  lemma SimplePatternMatches(s: seq<byte>)
    ensures PatternMatches([97, SLASH, 98], s) <==> s == [97, SLASH, 98]
  {
    var t: seq<Token> := [Exactly(97), Exactly(SLASH), Exactly(98)];
    SimplePattern();
    OneByteStep(t, s);
    if s != [] {
      assert t[1..] == [Exactly(SLASH), Exactly(98)];
      OneByteStep(t[1..], s[1..]);
      if s[1..] != [] {
        assert t[1..][1..] == [Exactly(98)];
        OneByteStep(t[1..][1..], s[1..][1..]);
        assert t[1..][1..][1..] == [];
      }
    }
  }

  const LOST: Path := [[97], [98], [99, 46, 109, 100]]

  const NEGATED: IgnoreFiles := map[[] := [Rule(false, false, [97, SLASH, 98]), Rule(true, true, [97, SLASH, 98])]]

  /** The document passes its own test, and a directory above it is pruned. */
  lemma NegatedRuleTests()
    ensures !Ignored(NEGATED, LOST) && PrunedAbove(NEGATED, LOST)
  {
    var a, b, c := LOST[0], LOST[1], LOST[2];
    var p: seq<byte> := [97, SLASH, 98];
    var ignore, keep := Rule(false, false, p), Rule(true, true, p);
    RootRulesOnly(NEGATED, [a]);
    RootRulesOnly(NEGATED, [a, b]);
    RootRulesOnly(NEGATED, [a, b, c]);
    assert [a, b, c][..1] == [a] && [a, b, c][..2] == [a, b];
    assert Join([a], SLASH) == a && Join([a, b], SLASH) == p;
    assert Join([a, b, c], SLASH)[1..] == [SLASH] + Join([b, c], SLASH);
    assert |Join([a, b, c], SLASH)| > 3;
    SimplePatternMatches(a);
    SimplePatternMatches(p);
    SimplePatternMatches(Join([a, b, c], SLASH));
    TwoRules(ignore, keep, a, true);
    TwoRules(ignore, keep, p, true);
    TwoRules(ignore, keep, p, false);
    TwoRules(ignore, keep, Join([a, b, c], SLASH), false);
  }

  lemma {:induction false} LostIsDocument()
    ensures DocumentPath(LOST)
  {
    assert EndsWith([99, 46, 109, 100], ".md");
  }

  /** With the rules `a/b` and `!a/b/` at the root, the tree that has only the
      document `a/b/c.md` is walked without finding it, although the document
      passes its own ignore test. */
  lemma {:induction false} NegatedDirectoryRuleLosesDocument(tree: seq<Node>)
    requires tree == [Dir([97], [Dir([98], [File([99, 46, 109, 100])])])]
    ensures PrunedWalk(NEGATED, [], tree) == []
    ensures Visible(NEGATED, AllDocuments([], tree), false) == [LOST]
  {
    assert Branch(LOST, 2) == File([99, 46, 109, 100]);
    assert Branch(LOST, 1) == Dir([98], [Branch(LOST, 2)]);
    assert tree == [Branch(LOST, 0)] && LOST[..0] == [];
    LostIsDocument();
    BranchDocuments(LOST, 0);
    NegatedRuleTests();
    OneDocument(NEGATED, LOST, true);
    OneDocument(NEGATED, LOST, false);
    PrunedWalkFilters(NEGATED, [], tree);
  }

  lemma {:induction false} OneDocument(files: IgnoreFiles, d: Path, strict: bool)
    ensures Visible(files, [d], strict) == OneVisible(files, d, strict)
  {
    assert [d][1..] == [];
    assert OneVisible(files, d, strict) + [] == OneVisible(files, d, strict);
  }

  lemma {:induction false} TwoRules(first: Rule, second: Rule, relative: seq<byte>, isDirectory: bool)
    ensures LastMatchIgnores([first, second], relative, isDirectory, false)
            <==> (if RuleMatches(second, relative, isDirectory) then !second.negated
                  else RuleMatches(first, relative, isDirectory) && !first.negated)
  {
    assert [first, second][..1] == [first] && [first][..0] == [];
    assert LastMatchIgnores([first], relative, isDirectory, false)
           <==> RuleMatches(first, relative, isDirectory) && !first.negated;
  }

  /** With a single ignore file at the root, only its rules count. */
  lemma {:induction false} RootRulesOnly(files: IgnoreFiles, path: Path)
    requires path != [] && files.Keys == {[]}
    ensures forall isDirectory :: PathState(files, path, isDirectory)
              <==> LastMatchIgnores(files[[]], Join(path, SLASH), isDirectory, false)
  {
    forall isDirectory
      ensures PathState(files, path, isDirectory)
              <==> LastMatchIgnores(files[[]], Join(path, SLASH), isDirectory, false)
    {
      var k := 1;
      assert path[..0] == [] && path[0..] == path;
      while k < |path|
        invariant 1 <= k <= |path|
        invariant StateAfter(files, path, k, isDirectory) <==> StateAfter(files, path, 1, isDirectory)
      {
        assert path[..k] !in files;
        k := k + 1;
      }
    }
  }
}
