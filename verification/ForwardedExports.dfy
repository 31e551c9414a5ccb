/**
 Following forwarded exports with a memo of resolved symbols shared by all chains,
 proved to accept exactly when every chain ends.
 */
module ForwardedExports {
  import opened PackageImages

  datatype Node = Node(image: string, symbol: Symbol)

  /** Where one export leads. */
  datatype Hop = Direct | Leaves | Broken | To(node: Node)

  function Next(w: World, n: Node): Hop {
    if n.image !in w.images then Broken
    else
      var image := w.images[n.image];
      if n.symbol !in image.forwarded then
        if n.symbol in image.exports then Direct else Broken
      else
        var f := image.forwarded[n.symbol];
        var library := Lower(f.library);
        if Outside(w, library) then Leaves
        else if library !in w.images || f.symbol !in w.images[library].exports then Broken
        else To(Node(library, f.symbol))
  }

  /** The chain from `n` ends well after at most `steps` hops to another export. */
  predicate EndsWithin(w: World, n: Node, steps: nat)
    decreases steps
  {
    match Next(w, n)
    case Direct => true
    case Leaves => true
    case Broken => false
    case To(m) => steps > 0 && EndsWithin(w, m, steps - 1)
  }

  ghost predicate Ends(w: World, n: Node) {
    exists steps: nat :: EndsWithin(w, n, steps)
  }

  function ForwardedNodes(w: World): set<Node> {
    set image, symbol | image in w.images && symbol in w.images[image].forwarded :: Node(image, symbol)
  }

  /** Each node of the path hops to the next one. */
  predicate IsChain(w: World, path: seq<Node>) {
    forall i :: 0 < i < |path| ==> Next(w, path[i - 1]) == To(path[i])
  }

  lemma OneHopFurther(w: World, n: Node, m: Node)
    requires Next(w, n) == To(m)
    ensures Ends(w, n) <==> Ends(w, m)
  {
    if Ends(w, n) {
      var steps: nat :| EndsWithin(w, n, steps);
      assert EndsWithin(w, m, steps - 1);
    }
    if Ends(w, m) {
      var steps: nat :| EndsWithin(w, m, steps);
      assert EndsWithin(w, n, steps + 1);
    }
  }

  lemma ZeroHops(w: World, n: Node)
    requires !Next(w, n).To?
    ensures Ends(w, n) <==> !Next(w, n).Broken?
  {
    if !Next(w, n).Broken? {
      assert EndsWithin(w, n, 0);
    }
  }

  /**
   What it means for a forwarded export to end: its library is a system library or declared external; or it is bundled
   and exports the symbol, and the chain from there ends if the symbol is forwarded again.
   */
  lemma ForwardedEnds(w: World, image: string, symbol: Symbol)
    requires image in w.images && symbol in w.images[image].forwarded
    ensures var f := w.images[image].forwarded[symbol];
      var library := Lower(f.library);
      Ends(w, Node(image, symbol)) <==>
        || library in w.system || library in w.external
        || (&& library in w.images && f.symbol in w.images[library].exports
            && (f.symbol in w.images[library].forwarded ==> Ends(w, Node(library, f.symbol))))
  {
    var f := w.images[image].forwarded[symbol];
    var n, m := Node(image, symbol), Node(Lower(f.library), f.symbol);
    if Next(w, n) == To(m) {
      OneHopFurther(w, n, m);
      if f.symbol !in w.images[m.image].forwarded {
        ZeroHops(w, m);
      }
    } else {
      ZeroHops(w, n);
    }
  }

  /** An export that is not forwarded ends exactly when the image has it; a name outside the package does not. */
  lemma DirectEnds(w: World, image: string, symbol: Symbol)
    requires image in w.images ==> symbol !in w.images[image].forwarded
    ensures Ends(w, Node(image, symbol)) <==> image in w.images && symbol in w.images[image].exports
  {
    ZeroHops(w, Node(image, symbol));
  }

  /** A hop to another export: the forwarder names a bundled library, not supplied from outside, that exports the symbol. */
  lemma HopMeans(w: World, n: Node, m: Node)
    ensures Next(w, n) == To(m) <==>
      && n.image in w.images && n.symbol in w.images[n.image].forwarded
      && m.image == Lower(w.images[n.image].forwarded[n.symbol].library)
      && m.symbol == w.images[n.image].forwarded[n.symbol].symbol
      && m.image !in w.system && m.image !in w.external
      && m.image in w.images && m.symbol in w.images[m.image].exports
  {
  }

  /** All nodes of a chain have the same fate. */
  lemma {:induction false} ChainsShareTheirEnd(w: World, path: seq<Node>, i: nat)
    requires IsChain(w, path) && i < |path|
    ensures Ends(w, path[i]) <==> Ends(w, path[|path| - 1])
    decreases |path| - i
  {
    if i + 1 < |path| {
      OneHopFurther(w, path[i], path[i + 1]);
      ChainsShareTheirEnd(w, path, i + 1);
    }
  }

  lemma {:induction false} LongChainsNeedManySteps(w: World, path: seq<Node>, steps: nat)
    requires path != [] && IsChain(w, path) && EndsWithin(w, path[0], steps)
    ensures |path| - 1 <= steps && EndsWithin(w, path[|path| - 1], steps - (|path| - 1))
  {
    if |path| > 1 {
      assert Next(w, path[0]) == To(path[1]);
      LongChainsNeedManySteps(w, path[1..], steps - 1);
    }
  }

  lemma {:induction false} CyclesNeverEndWithin(w: World, path: seq<Node>, steps: nat)
    requires |path| > 1 && IsChain(w, path) && path[|path| - 1] == path[0]
    ensures !EndsWithin(w, path[0], steps)
  {
    if EndsWithin(w, path[0], steps) {
      LongChainsNeedManySteps(w, path, steps);
      CyclesNeverEndWithin(w, path, steps - (|path| - 1));
    }
  }

  /** A chain that comes back to where it started does not end. */
  lemma CyclesNeverEnd(w: World, path: seq<Node>)
    requires |path| > 1 && IsChain(w, path) && path[|path| - 1] == path[0]
    ensures !Ends(w, path[0])
  {
    forall steps: nat ensures !EndsWithin(w, path[0], steps) {
      CyclesNeverEndWithin(w, path, steps);
    }
  }

  datatype Verdict = Accepted | Cyclic(cycle: seq<Node>) | Dangling(node: Node)

  /** A refusal names a real cycle, or an export that leads nowhere. */
  predicate Justified(w: World, v: Verdict) {
    match v
    case Accepted => true
    case Cyclic(cycle) => |cycle| > 1 && IsChain(w, cycle) && cycle[|cycle| - 1] == cycle[0]
    case Dangling(node) => Next(w, node).Broken?
  }

  function Blamed(v: Verdict): Node
    requires v.Cyclic? ==> v.cycle != []
    requires !v.Accepted?
  {
    if v.Cyclic? then v.cycle[0] else v.node
  }

  lemma JustifiedRefusal(w: World, path: seq<Node>, v: Verdict)
    requires path != [] && IsChain(w, path)
    requires !v.Accepted? && Justified(w, v) && Blamed(v) == path[|path| - 1]
    ensures !Ends(w, path[0])
  {
    ChainsShareTheirEnd(w, path, 0);
    match v
    case Cyclic(cycle) => CyclesNeverEnd(w, cycle);
    case Dangling(n) => ZeroHops(w, n);
  }

  lemma WholeChainEnds(w: World, path: seq<Node>)
    requires path != [] && IsChain(w, path) && Ends(w, path[|path| - 1])
    ensures forall n :: n in path ==> Ends(w, n)
  {
    forall i | 0 <= i < |path|
      ensures Ends(w, path[i])
    {
      ChainsShareTheirEnd(w, path, i);
    }
  }

  /** Follows one chain; `resolved` grows by what was found to end. */
  method ValidateForwardedSymbol(w: World, start: Node, known: set<Node>) returns (verdict: Verdict, resolved: set<Node>)
    requires forall n :: n in known ==> Ends(w, n)
    ensures verdict.Accepted? <==> Ends(w, start)
    ensures Justified(w, verdict)
    ensures known <= resolved && forall n :: n in resolved ==> Ends(w, n)
  {
    resolved := known;
    var node, stack, positions := start, [], map[];
    ghost var path := [start];
    while node !in resolved
      invariant path == stack + [node] && IsChain(w, path) && path[0] == start
      invariant resolved == known
      invariant forall i :: 0 <= i < |stack| ==> stack[i] in positions
      invariant forall n :: n in positions ==> 0 <= positions[n] < |stack| && stack[positions[n]] == n
      decreases ForwardedNodes(w) - positions.Keys
    {
      if node in positions {
        verdict := Cyclic(stack[positions[node]..] + [node]);
        assert path[positions[node]..] == verdict.cycle;
        JustifiedRefusal(w, path, verdict);
        return;
      }
      var hop := Next(w, node);
      if hop.Broken? {
        verdict := Dangling(node);
        JustifiedRefusal(w, path, verdict);
        return;
      }
      if hop.Direct? {
        ZeroHops(w, node);
        resolved := resolved + {node};
        break;
      }
      assert node in ForwardedNodes(w) - positions.Keys;
      positions := positions[node := |stack|];
      stack := stack + [node];
      assert node !in ForwardedNodes(w) - positions.Keys;
      if hop.Leaves? {
        ZeroHops(w, node);
        break;
      }
      node := hop.node;
      path := stack + [node];
    }
    WholeChainEnds(w, path);
    assert forall n :: n in stack ==> n in path;
    resolved := resolved + (set n | n in stack);
    verdict := Accepted;
  }

  /** Accepts exactly when every forwarded export of every image has a chain that ends, whatever the order of the visits. */
  method ValidateForwardedExports(w: World) returns (verdict: Verdict)
    ensures verdict.Accepted? <==> forall n :: n in ForwardedNodes(w) ==> Ends(w, n)
    ensures Justified(w, verdict)
  {
    var todo, resolved := ForwardedNodes(w), {};
    while todo != {}
      invariant todo <= ForwardedNodes(w)
      invariant forall n :: n in resolved ==> Ends(w, n)
      invariant forall n :: n in ForwardedNodes(w) - todo ==> Ends(w, n)
      decreases todo
    {
      var node :| node in todo;
      todo := todo - {node};
      verdict, resolved := ValidateForwardedSymbol(w, node, resolved);
      if !verdict.Accepted? {
        return;
      }
    }
    verdict := Accepted;
  }
}
