/**
 The linter rule of cmd/linter/analyzer/exit_check.go: calls to os.Exit and log.Fatal are
 forbidden outside main. The code decides by source position; the rule is about nesting.
 */
module ExitCheck {
  import opened Model

  /** A call through a selector on an imported package, resolved to the real import path. */
  datatype Callee = Callee(path: string, name: string)

  datatype Kind =
    | FuncDecl(name: string, receiver: bool, body: bool)   // with a body, its block is the last child
    | Call(callee: Option<Callee>)                         // None: any other form of call
    | OtherNode

  /**
   A syntax tree over half-open ranges of positions. Identifiers are not kept as nodes, and
   the receiver and signature of a function count as one, since in go/ast their ranges
   overlap. The root stands for the package, its children for the files.
   */
  datatype Node = Node(kind: Kind, lo: nat, hi: nat, children: seq<Node>)

  type Forbidden = map<string, seq<string>>

  const FORBIDDEN: Forbidden := map["os" := ["Exit"], "log" := ["Fatal", "Fatalf", "Fatalln"]]

  predicate NamesDistinct(forbidden: Forbidden) {
    forall p :: p in forbidden ==> forall i, j :: 0 <= i < j < |forbidden[p]| ==> forbidden[p][i] != forbidden[p][j]
  }

  /** The analyzer's own table meets its precondition and holds exactly os.Exit and the three log.Fatal functions. */
  lemma ForbiddenIsDistinct()
    ensures NamesDistinct(FORBIDDEN)
    ensures forall path, name :: path in FORBIDDEN && name in FORBIDDEN[path] <==>
      (path == "os" && name == "Exit") || (path == "log" && name in ["Fatal", "Fatalf", "Fatalln"])
  {
    assert FORBIDDEN["os"] == ["Exit"] && FORBIDDEN["log"] == ["Fatal", "Fatalf", "Fatalln"];
    assert |"Fatal"| == 5 && |"Fatalf"| == 6 && |"Fatalln"| == 7;
  }

  /** ExitAnalyzer: the analysis with that table. */
  method ExitAnalyzer(packageName: string, root: Node) returns (reports: seq<Node>)
    ensures packageName != "main" ==> reports == []
    ensures packageName == "main" && WellNested(root) && DeclsOutsideCalls(root) && Mains(root) <= 1 ==>
      reports == Violations(FORBIDDEN, root)
  {
    ForbiddenIsDistinct();
    reports := RunExitCheck(FORBIDDEN, packageName, root);
    if packageName == "main" && WellNested(root) && DeclsOutsideCalls(root) && Mains(root) <= 1 {
      PositionAgreesWithNesting(FORBIDDEN, root);
    }
  }

  predicate IsForbidden(forbidden: Forbidden, n: Node) {
    n.kind.Call? && n.kind.callee.Some? && n.kind.callee.value.path in forbidden &&
    n.kind.callee.value.name in forbidden[n.kind.callee.value.path]
  }

  /** The analyzer's test: fn.Name.Name == "main" && fn.Recv == nil. */
  predicate IsMain(n: Node) {
    n.kind.FuncDecl? && n.kind.name == "main" && !n.kind.receiver
  }

  /** fn.Body, nil for a function declared without one. */
  function BodyOf(n: Node): Option<Node> {
    if n.kind.FuncDecl? && n.kind.body && n.children != [] then Some(n.children[|n.children| - 1]) else None
  }

  function Preorder(n: Node): seq<Node>
    decreases n, 1
  {
    [n] + PreorderAll(n.children)
  }

  function PreorderAll(ns: seq<Node>): seq<Node>
    decreases ns, 0
  {
    if ns == [] then [] else Preorder(ns[0]) + PreorderAll(ns[1..])
  }

  // ---- The analyzer ---------------------------------------------------------------------------

  /** nodeInBlock: from the opening to the closing brace. */
  predicate NodeInBlock(n: Node, block: Node) {
    block.lo <= n.lo < block.hi
  }

  predicate Excused(n: Node, mainBody: Option<Node>) {
    mainBody.Some? && NodeInBlock(n, mainBody.value)
  }

  /** The last function named main that has no receiver. */
  function LastMain(nodes: seq<Node>): Option<Node> {
    if nodes == [] then None
    else if IsMain(nodes[|nodes| - 1]) then Some(nodes[|nodes| - 1])
    else LastMain(nodes[..|nodes| - 1])
  }

  /** The forbidden calls among the given nodes that the position test does not excuse. */
  function Flagged(forbidden: Forbidden, nodes: seq<Node>, mainBody: Option<Node>): seq<Node> {
    if nodes == [] then []
    else
      var n := nodes[|nodes| - 1];
      Flagged(forbidden, nodes[..|nodes| - 1], mainBody) +
      if IsForbidden(forbidden, n) && !Excused(n, mainBody) then [n] else []
  }

  /** The two traversals of runExitCheck over the package's nodes in preorder. */
  method RunExitCheck(forbidden: Forbidden, packageName: string, root: Node) returns (reports: seq<Node>)
    requires NamesDistinct(forbidden)
    ensures reports == if packageName != "main" then [] else Analyzed(forbidden, root)
  {
    if packageName != "main" {
      return [];
    }
    var nodes := Preorder(root);
    var mainFunc: Option<Node> := None;
    for i := 0 to |nodes|
      invariant mainFunc == LastMain(nodes[..i])
    {
      assert nodes[..i + 1][..i] == nodes[..i];
      if IsMain(nodes[i]) {
        mainFunc := Some(nodes[i]);
      }
    }
    assert nodes[..|nodes|] == nodes;
    var mainBody := if mainFunc.Some? then BodyOf(mainFunc.value) else None;
    reports := [];
    for i := 0 to |nodes|
      invariant reports == Flagged(forbidden, nodes[..i], mainBody)
    {
      assert nodes[..i + 1][..i] == nodes[..i];
      var more := Report(forbidden, nodes[i], mainBody);
      reports := reports + more;
    }
  }

  /** The callback of the second traversal: the loop over the forbidden names of a package. */
  method Report(forbidden: Forbidden, n: Node, mainBody: Option<Node>) returns (reports: seq<Node>)
    requires NamesDistinct(forbidden)
    ensures reports == if IsForbidden(forbidden, n) && !Excused(n, mainBody) then [n] else []
  {
    if !n.kind.Call? || n.kind.callee.None? || n.kind.callee.value.path !in forbidden {
      return [];
    }
    var callee := n.kind.callee.value;
    var names := forbidden[callee.path];
    reports := [];
    for k := 0 to |names|
      invariant reports == if callee.name in names[..k] then [n] else []
      invariant callee.name in names[..k] ==> !Excused(n, mainBody)
    {
      assert names[..k + 1] == names[..k] + [names[k]];
      if callee.name == names[k] {
        if Excused(n, mainBody) {
          return [];
        }
        reports := reports + [n];
      }
    }
    assert names[..|names|] == names;
  }

  function Analyzed(forbidden: Forbidden, root: Node): seq<Node> {
    var mainFunc := LastMain(Preorder(root));
    Flagged(forbidden, Preorder(root), if mainFunc.Some? then BodyOf(mainFunc.value) else None)
  }

  // ---- The rule --------------------------------------------------------------------------------

  /** func main() and its body, as the rule speaks of them. */
  predicate DeclaresMain(n: Node) {
    match n.kind
    case FuncDecl(name, receiver, _) => name == "main" && !receiver
    case _ => false
  }

  predicate HasBody(n: Node) {
    n.kind.FuncDecl? && n.kind.body && |n.children| > 0
  }

  /** The forbidden calls that are not nested in the body of main, in source order. */
  function Violations(forbidden: Forbidden, n: Node): seq<Node>
    decreases n, 1
  {
    (if IsForbidden(forbidden, n) then [n] else []) +
    if DeclaresMain(n) && HasBody(n) then ViolationsAll(forbidden, n.children[..|n.children| - 1])
    else ViolationsAll(forbidden, n.children)
  }

  function ViolationsAll(forbidden: Forbidden, ns: seq<Node>): seq<Node>
    decreases ns, 0
  {
    if ns == [] then [] else Violations(forbidden, ns[0]) + ViolationsAll(forbidden, ns[1..])
  }

  /** Every node's range encloses its children's, and siblings do not overlap and come in order. */
  predicate WellNested(n: Node)
    decreases n, 1
  {
    n.lo < n.hi && WellNestedAll(n.children, n.lo, n.hi)
  }

  predicate WellNestedAll(ns: seq<Node>, lo: nat, hi: nat)
    decreases ns, 0
  {
    lo <= hi &&
    (ns != [] ==> lo <= ns[0].lo && ns[0].hi <= hi && WellNested(ns[0]) && WellNestedAll(ns[1..], ns[0].hi, hi))
  }

  /** How many functions named main a tree declares. */
  function Mains(n: Node): nat
    decreases n, 1
  {
    (if DeclaresMain(n) then 1 else 0) + MainsAll(n.children)
  }

  function MainsAll(ns: seq<Node>): nat
    decreases ns, 0
  {
    if ns == [] then 0 else Mains(ns[0]) + MainsAll(ns[1..])
  }

  /** Function declarations never occur inside a call. */
  predicate DeclsOutsideCalls(n: Node)
    decreases n, 1
  {
    (n.kind.Call? ==> Mains(n) == 0) && DeclsOutsideCallsAll(n.children)
  }

  predicate DeclsOutsideCallsAll(ns: seq<Node>)
    decreases ns, 0
  {
    ns != [] ==> DeclsOutsideCalls(ns[0]) && DeclsOutsideCallsAll(ns[1..])
  }

  // ---- Position agrees with nesting ---------------------------------------------------------------

  lemma {:induction false} FlaggedConcat(forbidden: Forbidden, a: seq<Node>, b: seq<Node>, mainBody: Option<Node>)
    ensures Flagged(forbidden, a + b, mainBody) == Flagged(forbidden, a, mainBody) + Flagged(forbidden, b, mainBody)
  {
    if b == [] {
      assert a + b == a;
    } else {
      assert (a + b)[..|a + b| - 1] == a + b[..|b| - 1];
      FlaggedConcat(forbidden, a, b[..|b| - 1], mainBody);
    }
  }

  lemma {:induction false} LastMainConcat(a: seq<Node>, b: seq<Node>)
    ensures LastMain(a + b) == if LastMain(b).Some? then LastMain(b) else LastMain(a)
  {
    if b == [] {
      assert a + b == a;
    } else {
      assert (a + b)[..|a + b| - 1] == a + b[..|b| - 1];
      LastMainConcat(a, b[..|b| - 1]);
    }
  }

  /** The main that the first traversal finds lies in the tree, and there is one exactly when one is declared. */
  lemma {:induction false} MainOfTree(n: Node)
    requires WellNested(n)
    ensures LastMain(Preorder(n)).Some? <==> Mains(n) > 0
    ensures LastMain(Preorder(n)).Some? ==>
      var m := LastMain(Preorder(n)).value;
      IsMain(m) && n.lo <= m.lo && m.hi <= n.hi && WellNested(m)
    decreases n, 1
  {
    MainOfForest(n.children, n.lo, n.hi);
    LastMainConcat([n], PreorderAll(n.children));
    assert [n][..0] == [];
  }

  lemma {:induction false} MainOfForest(ns: seq<Node>, lo: nat, hi: nat)
    requires WellNestedAll(ns, lo, hi)
    ensures LastMain(PreorderAll(ns)).Some? <==> MainsAll(ns) > 0
    ensures LastMain(PreorderAll(ns)).Some? ==>
      var m := LastMain(PreorderAll(ns)).value;
      IsMain(m) && lo <= m.lo && m.hi <= hi && WellNested(m)
    decreases ns, 0
  {
    if ns == [] {
    } else {
      MainOfTree(ns[0]);
      MainOfForest(ns[1..], ns[0].hi, hi);
      LastMainConcat(Preorder(ns[0]), PreorderAll(ns[1..]));
    }
  }

  predicate Apart(lo: nat, hi: nat, mainBody: Option<Node>) {
    mainBody.Some? ==> hi <= mainBody.value.lo || mainBody.value.hi <= lo
  }

  /** A tree without a main and away from its body: both sides flag every forbidden call. */
  lemma {:induction false} AwayFromMain(forbidden: Forbidden, n: Node, mainBody: Option<Node>)
    requires WellNested(n) && Mains(n) == 0 && Apart(n.lo, n.hi, mainBody)
    ensures Flagged(forbidden, Preorder(n), mainBody) == Violations(forbidden, n)
    decreases n, 1
  {
    ForestAwayFromMain(forbidden, n.children, n.lo, n.hi, mainBody);
    HeadFlagged(forbidden, n, mainBody);
  }

  lemma HeadFlagged(forbidden: Forbidden, n: Node, mainBody: Option<Node>)
    ensures Flagged(forbidden, Preorder(n), mainBody) ==
            (if IsForbidden(forbidden, n) && !Excused(n, mainBody) then [n] else []) +
            Flagged(forbidden, PreorderAll(n.children), mainBody)
  {
    FlaggedConcat(forbidden, [n], PreorderAll(n.children), mainBody);
    assert [n][..0] == [];
  }

  lemma {:induction false} ForestAwayFromMain(forbidden: Forbidden, ns: seq<Node>, lo: nat, hi: nat, mainBody: Option<Node>)
    requires WellNestedAll(ns, lo, hi) && MainsAll(ns) == 0 && Apart(lo, hi, mainBody)
    ensures Flagged(forbidden, PreorderAll(ns), mainBody) == ViolationsAll(forbidden, ns)
    decreases ns, 0
  {
    if ns == [] {
    } else {
      AwayFromMain(forbidden, ns[0], mainBody);
      ForestAwayFromMain(forbidden, ns[1..], ns[0].hi, hi, mainBody);
      FlaggedConcat(forbidden, Preorder(ns[0]), PreorderAll(ns[1..]), mainBody);
    }
  }

  /** Inside the body nothing is flagged. */
  lemma {:induction false} InsideMain(forbidden: Forbidden, n: Node, mainBody: Node)
    requires WellNested(n) && mainBody.lo <= n.lo && n.hi <= mainBody.hi
    ensures Flagged(forbidden, Preorder(n), Some(mainBody)) == []
    decreases n, 1
  {
    ForestInsideMain(forbidden, n.children, n.lo, n.hi, mainBody);
    HeadFlagged(forbidden, n, Some(mainBody));
  }

  lemma {:induction false} ForestInsideMain(forbidden: Forbidden, ns: seq<Node>, lo: nat, hi: nat, mainBody: Node)
    requires WellNestedAll(ns, lo, hi) && mainBody.lo <= lo && hi <= mainBody.hi
    ensures Flagged(forbidden, PreorderAll(ns), Some(mainBody)) == []
    decreases ns, 0
  {
    if ns == [] {
    } else {
      InsideMain(forbidden, ns[0], mainBody);
      ForestInsideMain(forbidden, ns[1..], ns[0].hi, hi, mainBody);
      FlaggedConcat(forbidden, Preorder(ns[0]), PreorderAll(ns[1..]), Some(mainBody));
    }
  }

  lemma {:induction false} LastChildNested(ns: seq<Node>, lo: nat, hi: nat)
    requires WellNestedAll(ns, lo, hi) && ns != []
    ensures
      var last := ns[|ns| - 1];
      && lo <= last.lo && last.hi <= hi && WellNested(last)
      && WellNestedAll(ns[..|ns| - 1], lo, last.lo)
    decreases ns
  {
    if |ns| == 1 {
    } else {
      var front := ns[..|ns| - 1];
      LastChildNested(ns[1..], ns[0].hi, hi);
      assert ns[1..][..|ns[1..]| - 1] == front[1..] && front[0] == ns[0];
    }
  }

  lemma Regroup<T>(a: seq<T>, b: seq<T>, c: seq<T>)
    ensures a + (b + c) == a + b + c
  {
  }

  lemma {:induction false} PreorderConcat(a: seq<Node>, b: seq<Node>)
    ensures PreorderAll(a + b) == PreorderAll(a) + PreorderAll(b)
    decreases a
  {
    if a == [] {
      assert a + b == b;
    } else {
      PreorderConcat(a[1..], b);
      assert (a + b)[1..] == a[1..] + b && (a + b)[0] == a[0];
      var head, mid, tail := Preorder(a[0]), PreorderAll(a[1..]), PreorderAll(b);
      calc {
        PreorderAll(a + b);
      ==
        head + (mid + tail);
      ==  { Regroup(head, mid, tail); }
        head + mid + tail;
      }
    }
  }

  lemma {:induction false} MainsConcat(a: seq<Node>, b: seq<Node>)
    ensures MainsAll(a + b) == MainsAll(a) + MainsAll(b)
    decreases a
  {
    if a == [] {
      assert a + b == b;
    } else {
      MainsConcat(a[1..], b);
      assert (a + b)[1..] == a[1..] + b;
    }
  }

  lemma LastChildVisited(ns: seq<Node>)
    requires ns != []
    ensures
      var front, last := ns[..|ns| - 1], ns[|ns| - 1];
      PreorderAll(ns) == PreorderAll(front) + Preorder(last) && MainsAll(ns) == MainsAll(front) + Mains(last)
  {
    var front, last := ns[..|ns| - 1], ns[|ns| - 1];
    assert ns == front + [last];
    PreorderConcat(front, [last]);
    MainsConcat(front, [last]);
    OneTree(last);
  }

  lemma OneTree(n: Node)
    ensures PreorderAll([n]) == Preorder(n) && MainsAll([n]) == Mains(n)
  {
    assert [n][1..] == [];
    assert PreorderAll([n]) == Preorder(n) + [];
  }

  /** The declaration of main itself: its body is excused, and nothing else in it is. */
  lemma MainItself(forbidden: Forbidden, n: Node)
    requires WellNested(n) && IsMain(n) && Mains(n) == 1
    ensures Flagged(forbidden, Preorder(n), BodyOf(n)) == Violations(forbidden, n)
  {
    HeadFlagged(forbidden, n, BodyOf(n));
    if BodyOf(n).Some? {
      var front, body := n.children[..|n.children| - 1], BodyOf(n).value;
      LastChildNested(n.children, n.lo, n.hi);
      LastChildVisited(n.children);
      FlaggedConcat(forbidden, PreorderAll(front), Preorder(body), BodyOf(n));
      ForestAwayFromMain(forbidden, front, n.lo, body.lo, BodyOf(n));
      InsideMain(forbidden, body, body);
    } else {
      ForestAwayFromMain(forbidden, n.children, n.lo, n.hi, None);
    }
  }

  /** A tree that declares the one main, judged with that main's body. */
  lemma {:induction false} AroundMain(forbidden: Forbidden, n: Node)
    requires WellNested(n) && DeclsOutsideCalls(n) && Mains(n) == 1
    ensures LastMain(Preorder(n)).Some?
    ensures Flagged(forbidden, Preorder(n), BodyOf(LastMain(Preorder(n)).value)) == Violations(forbidden, n)
    decreases n, 1
  {
    MainOfTree(n);
    LastMainConcat([n], PreorderAll(n.children));
    assert [n][..0] == [];
    MainOfForest(n.children, n.lo, n.hi);
    if IsMain(n) {
      MainItself(forbidden, n);
    } else {
      ForestAroundMain(forbidden, n.children, n.lo, n.hi);
      HeadFlagged(forbidden, n, BodyOf(LastMain(Preorder(n)).value));
    }
  }

  lemma {:induction false} ForestAroundMain(forbidden: Forbidden, ns: seq<Node>, lo: nat, hi: nat)
    requires WellNestedAll(ns, lo, hi) && DeclsOutsideCallsAll(ns) && MainsAll(ns) == 1
    ensures LastMain(PreorderAll(ns)).Some?
    ensures Flagged(forbidden, PreorderAll(ns), BodyOf(LastMain(PreorderAll(ns)).value)) == ViolationsAll(forbidden, ns)
    decreases ns, 0
  {
    var first, rest := ns[0], ns[1..];
    LastMainConcat(Preorder(first), PreorderAll(rest));
    MainOfTree(first);
    MainOfForest(rest, first.hi, hi);
    var body := BodyOf(LastMain(PreorderAll(ns)).value);
    FlaggedConcat(forbidden, Preorder(first), PreorderAll(rest), body);
    BodyWithin(LastMain(PreorderAll(ns)).value);
    if Mains(first) == 1 {
      AroundMain(forbidden, first);
      ForestAwayFromMain(forbidden, rest, first.hi, hi, body);
    } else {
      AwayFromMain(forbidden, first, body);
      ForestAroundMain(forbidden, rest, first.hi, hi);
    }
  }

  lemma BodyWithin(m: Node)
    requires WellNested(m)
    ensures BodyOf(m).Some? ==> m.lo <= BodyOf(m).value.lo && BodyOf(m).value.hi <= m.hi
  {
    if BodyOf(m).Some? {
      LastChildNested(m.children, m.lo, m.hi);
    }
  }

  /**
   In every well-nested package with at most one main, the position test flags each
   forbidden call outside the body of main, once and in source order, and no other call.
   */
  lemma PositionAgreesWithNesting(forbidden: Forbidden, root: Node)
    requires WellNested(root) && DeclsOutsideCalls(root) && Mains(root) <= 1
    ensures Analyzed(forbidden, root) == Violations(forbidden, root)
  {
    MainOfTree(root);
    if Mains(root) == 1 {
      AroundMain(forbidden, root);
    } else {
      AwayFromMain(forbidden, root, None);
    }
  }
}
