/** Bounded classification of error trees (`classifyKsqlCollectionLimitError` and
    `classifyMessageLocalStopError` of internal/mcpserver). Go errors form a graph through Unwrap, which may
    share nodes and may even be cyclic. */
module ErrorTree {
  const MAX_DEPTH: nat := 32
  const MAX_NODES: nat := 128

  /** How an error unwraps. */
  datatype Node = Leaf | Wrapper(inner: nat) | Join(children: seq<nat>)

  /** Errors are numbered; 0 is nil. `accepted` are the sentinels that are local to the collector: the
      collection limit for KSQL, the stop sentinel and context.Canceled for messages. */
  datatype Errors = Errors(nodes: map<nat, Node>, accepted: set<nat>)

  function NodeOf(g: Errors, e: nat): Node {
    if e in g.nodes then g.nodes[e] else Leaf
  }

  /** What lies directly below an error that is looked into. */
  function Below(g: Errors, e: nat): seq<nat> {
    if e == 0 || e in g.accepted then []
    else match NodeOf(g, e)
      case Leaf => []
      case Wrapper(inner) => [inner]
      case Join(children) => children
  }

  // ---------- What the classification is meant to say ----------

  /** Some error other than nil lies at the depth limit or below it. */
  predicate TooDeep(g: Errors, e: nat, depth: nat)
    decreases MAX_DEPTH - depth, 1, 0
  {
    e != 0 && (depth >= MAX_DEPTH || AnyTooDeep(g, Below(g, e), depth + 1))
  }

  predicate AnyTooDeep(g: Errors, es: seq<nat>, depth: nat)
    requires depth <= MAX_DEPTH
    decreases MAX_DEPTH - depth, 2, |es|
  {
    es != [] && (AnyTooDeep(g, es[..|es| - 1], depth) || TooDeep(g, es[|es| - 1], depth))
  }

  /** The errors other than nil above the depth limit, counted once for each way to reach them. */
  function Count(g: Errors, e: nat, depth: nat): nat
    decreases MAX_DEPTH - depth, 1, 0
  {
    if e == 0 || depth >= MAX_DEPTH then 0 else 1 + CountAll(g, Below(g, e), depth + 1)
  }

  function CountAll(g: Errors, es: seq<nat>, depth: nat): nat
    requires depth <= MAX_DEPTH
    decreases MAX_DEPTH - depth, 2, |es|
  {
    if es == [] then 0 else CountAll(g, es[..|es| - 1], depth) + Count(g, es[|es| - 1], depth)
  }

  /** A way down the tree: each step goes to something directly below. */
  predicate Path(g: Errors, es: seq<nat>)
    decreases |es|
  {
    es != [] && (|es| > 1 ==> es[1] in Below(g, es[0]) && Path(g, es[1..]))
  }

  /** A complete way down: it ends where nothing lies below. */
  predicate LeafPath(g: Errors, es: seq<nat>) {
    Path(g, es) && Below(g, es[|es| - 1]) == []
  }

  ghost predicate OnlyAccepted(g: Errors, e: nat) {
    forall es {:trigger LeafPath(g, es)} :: LeafPath(g, es) && es[0] == e ==> es[|es| - 1] in g.accepted
  }

  ghost predicate ContainsAccepted(g: Errors, e: nat) {
    exists es {:trigger LeafPath(g, es)} :: LeafPath(g, es) && es[0] == e && es[|es| - 1] in g.accepted
  }

  // ---------- The classification ----------

  datatype Class = Class(only: bool, contains: bool, complete: bool)

  const INCOMPLETE := Class(false, false, false)

  ghost predicate Fits(g: Errors, e: nat, depth: nat, nodes: nat) {
    !TooDeep(g, e, depth) && nodes + Count(g, e, depth) <= MAX_NODES
  }

  ghost predicate Describes(g: Errors, e: nat, c: Class) {
    (c.only <==> OnlyAccepted(g, e)) && (c.contains <==> ContainsAccepted(g, e))
  }

  lemma LeafDescribed(g: Errors, e: nat)
    requires Below(g, e) == []
    ensures Describes(g, e, Class(e in g.accepted, e in g.accepted, true))
  {
    assert LeafPath(g, [e]);
  }

  /** A tree is what its children are. */
  lemma InnerDescribed(g: Errors, e: nat, only: bool, contains: bool)
    requires Below(g, e) != []
    requires only <==> forall c :: c in Below(g, e) ==> OnlyAccepted(g, c)
    requires contains <==> exists c :: c in Below(g, e) && ContainsAccepted(g, c)
    ensures Describes(g, e, Class(only, contains, true))
  {
    forall es | LeafPath(g, es) && es[0] == e
      ensures |es| > 1 && es[1] in Below(g, e) && LeafPath(g, es[1..]) && es[1..][0] == es[1]
      ensures es[1..][|es[1..]| - 1] == es[|es| - 1]
    {
      assert |es| > 1;
    }
    forall c, es | c in Below(g, e) && LeafPath(g, es) && es[0] == c
      ensures LeafPath(g, [e] + es) && ([e] + es)[|es|] == es[|es| - 1]
    {
      assert ([e] + es)[1..] == es;
    }
    if only {
      forall es | LeafPath(g, es) && es[0] == e
        ensures es[|es| - 1] in g.accepted
      {
        assert OnlyAccepted(g, es[1]);
      }
    } else {
      var c :| c in Below(g, e) && !OnlyAccepted(g, c);
      var es :| LeafPath(g, es) && es[0] == c && es[|es| - 1] !in g.accepted;
      assert LeafPath(g, [e] + es);
    }
    if contains {
      var c :| c in Below(g, e) && ContainsAccepted(g, c);
      var es :| LeafPath(g, es) && es[0] == c && es[|es| - 1] in g.accepted;
      assert LeafPath(g, [e] + es);
    }
  }

  lemma {:induction false} PartOfAll(g: Errors, es: seq<nat>, i: nat, depth: nat)
    requires i <= |es| && depth <= MAX_DEPTH
    ensures CountAll(g, es[..i], depth) <= CountAll(g, es, depth)
    ensures AnyTooDeep(g, es[..i], depth) ==> AnyTooDeep(g, es, depth)
    decreases |es| - i
  {
    if i == |es| {
      assert es[..i] == es;
    } else {
      PartOfAll(g, es[..|es| - 1], i, depth);
      assert es[..|es| - 1][..i] == es[..i];
    }
  }

  lemma OnlyOne(g: Errors, e: nat, depth: nat)
    requires depth <= MAX_DEPTH
    ensures CountAll(g, [e], depth) == Count(g, e, depth)
    ensures AnyTooDeep(g, [e], depth) <==> TooDeep(g, e, depth)
  {
    assert [e][..0] == [];
  }

  /** With the counter threaded through: complete exactly when the tree fits what is left of both limits, and
      then the classes are exact and the counter has grown by the size of the tree. */
  method Classify(g: Errors, e: nat, depth: nat, nodes: nat) returns (c: Class, counted: nat)
    requires 0 !in g.accepted && nodes <= MAX_NODES && depth <= MAX_DEPTH
    ensures nodes <= counted <= MAX_NODES
    ensures c.complete <==> Fits(g, e, depth, nodes)
    ensures c.complete ==> counted == nodes + Count(g, e, depth) && Describes(g, e, c)
    ensures !c.complete ==> c == INCOMPLETE
    decreases MAX_DEPTH - depth, 1
  {
    counted := nodes;
    if e == 0 {
      LeafDescribed(g, e);
      return Class(false, false, true), counted;
    }
    if depth >= MAX_DEPTH || nodes >= MAX_NODES {
      return INCOMPLETE, counted;
    }
    counted := nodes + 1;
    assert CountAll(g, [], depth + 1) == 0 && !AnyTooDeep(g, [], depth + 1);
    if e in g.accepted {
      LeafDescribed(g, e);
      return Class(true, true, true), counted;
    }
    match NodeOf(g, e) {
      case Leaf =>
        LeafDescribed(g, e);
        return Class(false, false, true), counted;
      case Wrapper(inner) =>
        OnlyOne(g, inner, depth + 1);
        c, counted := Classify(g, inner, depth + 1, counted);
        if c.complete {
          InnerDescribed(g, e, c.only, c.contains);
        }
      case Join(children) =>
        if children == [] {
          LeafDescribed(g, e);
          return Class(false, false, true), counted;
        }
        c, counted := ClassifyAll(g, children, depth + 1, counted);
        if c.complete {
          InnerDescribed(g, e, c.only, c.contains);
        }
    }
  }

  method ClassifyAll(g: Errors, children: seq<nat>, depth: nat, nodes: nat) returns (c: Class, counted: nat)
    requires 0 !in g.accepted && nodes <= MAX_NODES && depth <= MAX_DEPTH
    ensures nodes <= counted <= MAX_NODES
    ensures c.complete <==> !AnyTooDeep(g, children, depth) && nodes + CountAll(g, children, depth) <= MAX_NODES
    ensures c.complete ==> counted == nodes + CountAll(g, children, depth)
    ensures c.complete ==> (c.only <==> forall e :: e in children ==> OnlyAccepted(g, e))
    ensures c.complete ==> (c.contains <==> exists e :: e in children && ContainsAccepted(g, e))
    ensures !c.complete ==> c == INCOMPLETE
    decreases MAX_DEPTH - depth, 2
  {
    c, counted := Class(true, false, true), nodes;
    for i := 0 to |children|
      invariant c.complete && nodes <= counted <= MAX_NODES
      invariant !AnyTooDeep(g, children[..i], depth) && counted == nodes + CountAll(g, children[..i], depth)
      invariant c.only <==> forall e :: e in children[..i] ==> OnlyAccepted(g, e)
      invariant c.contains <==> exists e :: e in children[..i] && ContainsAccepted(g, e)
    {
      PartOfAll(g, children, i + 1, depth);
      assert children[..i + 1][..i] == children[..i];
      assert children[..i + 1] == children[..i] + [children[i]];
      var child;
      child, counted := Classify(g, children[i], depth, counted);
      if !child.complete {
        return INCOMPLETE, counted;
      }
      c := Class(c.only && child.only, c.contains || child.contains, true);
    }
    assert children[..|children|] == children;
  }

  // ---------- Errors in wrappers ----------

  /** Each error but the last is a wrapper of the next. */
  predicate Wraps(g: Errors, es: seq<nat>) {
    && es != [] && 0 !in es
    && forall i :: 0 <= i < |es| - 1 ==> es[i] !in g.accepted && NodeOf(g, es[i]) == Wrapper(es[i + 1])
  }

  /** The last error joins errors that wrap nothing. */
  predicate JoinsAtEnd(g: Errors, es: seq<nat>, children: seq<nat>) {
    && Wraps(g, es) && es[|es| - 1] !in g.accepted && NodeOf(g, es[|es| - 1]) == Join(children)
    && children != [] && 0 !in children && forall c :: c in children ==> c in g.accepted || NodeOf(g, c).Leaf?
  }

  /** Wrappers pass on what they wrap; each takes a level and a node. */
  lemma {:induction false} WrappersPassOn(g: Errors, es: seq<nat>, depth: nat)
    requires Wraps(g, es)
    ensures depth + |es| > MAX_DEPTH ==> TooDeep(g, es[0], depth)
    ensures var last, below := es[|es| - 1], depth + |es| - 1;
            below <= MAX_DEPTH ==>
              && (TooDeep(g, es[0], depth) <==> TooDeep(g, last, below))
              && Count(g, es[0], depth) == |es| - 1 + Count(g, last, below)
    ensures OnlyAccepted(g, es[0]) <==> OnlyAccepted(g, es[|es| - 1])
    ensures ContainsAccepted(g, es[0]) <==> ContainsAccepted(g, es[|es| - 1])
  {
    if |es| > 1 {
      var rest := es[1..];
      assert Below(g, es[0]) == [es[1]];
      WrappersPassOn(g, rest, depth + 1);
      InnerDescribed(g, es[0], OnlyAccepted(g, es[1]), ContainsAccepted(g, es[1]));
      if depth < MAX_DEPTH {
        OnlyOne(g, es[1], depth + 1);
      }
    }
  }

  /** A wrapped error from the list is made of nothing else. */
  lemma WrappedIsAccepted(g: Errors, es: seq<nat>)
    requires Wraps(g, es) && es[|es| - 1] in g.accepted
    ensures Fits(g, es[0], 0, 0) <==> |es| <= MAX_DEPTH
    ensures OnlyAccepted(g, es[0]) && ContainsAccepted(g, es[0])
  {
    var last := es[|es| - 1];
    WrappersPassOn(g, es, 0);
    LeafDescribed(g, last);
    if |es| <= MAX_DEPTH {
      SimpleCost(g, last, |es| - 1);
    }
  }

  lemma SimpleCost(g: Errors, e: nat, depth: nat)
    requires e != 0 && Below(g, e) == [] && depth < MAX_DEPTH
    ensures !TooDeep(g, e, depth) && Count(g, e, depth) == 1
  {
    assert !AnyTooDeep(g, [], depth + 1) && CountAll(g, [], depth + 1) == 0;
  }

  lemma {:induction false} SimpleCosts(g: Errors, es: seq<nat>, depth: nat)
    requires 0 !in es && depth < MAX_DEPTH && forall e :: e in es ==> Below(g, e) == []
    ensures !AnyTooDeep(g, es, depth) && CountAll(g, es, depth) == |es|
  {
    if es != [] {
      SimpleCosts(g, es[..|es| - 1], depth);
      SimpleCost(g, es[|es| - 1], depth);
    }
  }

  /** A wrapped join is made of its children. */
  lemma WrappedJoin(g: Errors, es: seq<nat>, children: seq<nat>)
    requires JoinsAtEnd(g, es, children) && |es| < MAX_DEPTH && |es| + |children| <= MAX_NODES
    ensures Fits(g, es[0], 0, 0)
    ensures OnlyAccepted(g, es[0]) <==> forall c :: c in children ==> c in g.accepted
    ensures ContainsAccepted(g, es[0]) <==> exists c :: c in children && c in g.accepted
  {
    var last := es[|es| - 1];
    WrappersPassOn(g, es, 0);
    SimpleCosts(g, children, |es|);
    forall c | c in children
      ensures OnlyAccepted(g, c) <==> c in g.accepted
      ensures ContainsAccepted(g, c) <==> c in g.accepted
    {
      LeafDescribed(g, c);
    }
    InnerDescribed(g, last, forall c :: c in children ==> c in g.accepted,
                   exists c :: c in children && c in g.accepted);
  }

  // ---------- What the callers make of it ----------

  datatype Answer = Success | Failed(e: nat) | OperationFailed | ResultTooLarge

  /** `openMCPKsql`: an error made of nothing but collection limits is reported as a result that is too large;
      a limit mixed with other errors must not hide them and is reported as a failed operation. */
  method AnswerKsql(g: Errors, e: nat) returns (answer: Answer)
    requires 0 !in g.accepted
    ensures e == 0 <==> answer.Success?
    ensures answer.ResultTooLarge? <==> e != 0 && Fits(g, e, 0, 0) && OnlyAccepted(g, e)
    ensures answer.OperationFailed? <==> e != 0 && Fits(g, e, 0, 0) && !OnlyAccepted(g, e) && ContainsAccepted(g, e)
    ensures answer.Failed? ==> answer.e == e
    ensures forall es :: Wraps(g, es) && es[0] == e && es[|es| - 1] in g.accepted ==>
              answer == if |es| <= 32 then ResultTooLarge else Failed(e)
    ensures forall es, children ::
              JoinsAtEnd(g, es, children) && es[0] == e && |es| < 32 && |es| + |children| <= 128 ==>
                answer ==
                  if forall c :: c in children ==> c in g.accepted then ResultTooLarge
                  else if exists c :: c in children && c in g.accepted then OperationFailed
                  else Failed(e)
  {
    forall es | Wraps(g, es) && es[0] == e && es[|es| - 1] in g.accepted
      ensures (Fits(g, e, 0, 0) <==> |es| <= 32) && OnlyAccepted(g, e)
    {
      WrappedIsAccepted(g, es);
    }
    forall es, children | JoinsAtEnd(g, es, children) && es[0] == e && |es| < 32 && |es| + |children| <= 128
      ensures Fits(g, e, 0, 0)
      ensures OnlyAccepted(g, e) <==> forall c :: c in children ==> c in g.accepted
      ensures ContainsAccepted(g, e) <==> exists c :: c in children && c in g.accepted
    {
      WrappedJoin(g, es, children);
    }
    if e == 0 {
      return Success;
    }
    var c, _ := Classify(g, e, 0, 0);
    if !c.complete || !c.only {
      if c.contains {
        return OperationFailed;
      }
      return Failed(e);
    }
    return ResultTooLarge;
  }

  /** `browseTopicMessages`: a browse that the collector itself stopped is a success even though it ended with
      an error, but only if that error is made of nothing else and the caller did not cancel. */
  method AnswerBrowse(g: Errors, e: nat, stopped: bool, cancelled: bool) returns (answer: Answer)
    requires 0 !in g.accepted
    ensures answer.Success? <==> e == 0 || (Fits(g, e, 0, 0) && OnlyAccepted(g, e) && stopped && !cancelled)
    ensures answer.OperationFailed? <==> e != 0 && !Fits(g, e, 0, 0)
    ensures answer.Failed? ==> answer.e == e
    ensures !answer.ResultTooLarge?
    ensures forall es :: Wraps(g, es) && es[0] == e && es[|es| - 1] in g.accepted ==>
              answer == if |es| > 32 then OperationFailed else if stopped && !cancelled then Success else Failed(e)
  {
    forall es | Wraps(g, es) && es[0] == e && es[|es| - 1] in g.accepted
      ensures (Fits(g, e, 0, 0) <==> |es| <= 32) && OnlyAccepted(g, e)
    {
      WrappedIsAccepted(g, es);
    }
    if e == 0 {
      return Success;
    }
    var c, _ := Classify(g, e, 0, 0);
    if !c.complete {
      return OperationFailed;
    }
    if !stopped || cancelled || !c.only {
      return Failed(e);
    }
    return Success;
  }
}
