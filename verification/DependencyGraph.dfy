/**
 The stack-based search over the import graph, proved to give the verdict of a flat
 pass over every import of every image and to report real import paths.
 */
module DependencyGraph {
  import opened Options
  import opened PackageImages
  import ForwardedExports

  /** A bundled image and how far its imports have been walked. */
  datatype Frame = Frame(name: string, next: nat)

  datatype Verdict =
    | Accepted
    | Conflicting(library: string)
    | UnknownRoot(root: string)
    | BadName(chain: seq<string>, at: nat)
    | Unresolved(chain: seq<string>, at: nat)
    | MissingTarget(chain: seq<string>, at: nat, target: Symbol)
    | BadForward(forward: ForwardedExports.Verdict)

  /** The bundled image an import leads to, if it is well named and not supplied from outside. */
  function Target(w: World, i: Import): Option<string> {
    match w.key(i.library)
    case None => None
    case Some(k) => if Outside(w, k) then None else Some(k)
  }

  /** The flat check of one import. */
  predicate ImportOk(w: World, i: Import) {
    && w.key(i.library).Some?
    && (Target(w, i).Some? ==>
          && Target(w, i).value in w.images
          && forall t :: t in i.targets ==> t in w.images[Target(w, i).value].exports)
  }

  /** An import passes when its name has a key and the library is a system or external one, or a bundled one with every target. */
  lemma ImportOkMeans(w: World, i: Import)
    ensures ImportOk(w, i) <==>
      && w.key(i.library).Some?
      && var k := w.key(i.library).value;
         || k in w.system || k in w.external
         || (k in w.images && forall j :: 0 <= j < |i.targets| ==> i.targets[j] in w.images[k].exports)
  {
  }

  /** An import leads to the image under its key, unless that library is supplied from outside. */
  lemma TargetMeans(w: World, i: Import, k: string)
    ensures Target(w, i) == Some(k) <==> w.key(i.library) == Some(k) && k !in w.system && k !in w.external
  {
  }

  predicate ImageOk(w: World, name: string)
    requires name in w.images
  {
    forall i :: 0 <= i < |w.images[name].imports| ==> ImportOk(w, w.images[name].imports[i])
  }

  predicate Disjoint(w: World) {
    forall name :: name in w.images ==> name !in w.external
  }

  /** One of the imports of `from` leads to `to`. */
  predicate Imports(w: World, from: string, to: string)
    requires from in w.images
  {
    exists i :: 0 <= i < |w.images[from].imports| && Target(w, w.images[from].imports[i]) == Some(to)
  }

  /** Each name on the chain is a bundled image that imports the next one. */
  predicate IsImportPath(w: World, chain: seq<string>) {
    && (forall j :: 0 <= j < |chain| ==> chain[j] in w.images)
    && (forall j :: 0 < j < |chain| ==> Imports(w, chain[j - 1], chain[j]))
  }

  /** A real import path ends in the image whose import number `at` is meant. */
  predicate Located(w: World, chain: seq<string>, at: nat) {
    chain != [] && IsImportPath(w, chain) && at < |w.images[chain[|chain| - 1]].imports|
  }

  function Offender(w: World, chain: seq<string>, at: nat): Import
    requires Located(w, chain, at)
  {
    w.images[chain[|chain| - 1]].imports[at]
  }

  /** A refusal names a real import path to the offending import. */
  predicate Justified(w: World, v: Verdict) {
    match v
    case Accepted => true
    case Conflicting(library) => library in w.images && library in w.external
    case UnknownRoot(root) => root !in w.images
    case BadForward(f) => !f.Accepted? && ForwardedExports.Justified(w, f)
    case BadName(chain, at) => Located(w, chain, at) && w.key(Offender(w, chain, at).library).None?
    case Unresolved(chain, at) =>
      && Located(w, chain, at)
      && var to := Target(w, Offender(w, chain, at));
         to.Some? && to.value !in w.images
    case MissingTarget(chain, at, t) =>
      && Located(w, chain, at) && t in Offender(w, chain, at).targets
      && var to := Target(w, Offender(w, chain, at));
         to.Some? && to.value in w.images && t !in w.images[to.value].exports
  }

  function Names(stack: seq<Frame>): (names: seq<string>)
    ensures |names| == |stack| && forall j :: 0 <= j < |stack| ==> names[j] == stack[j].name
  {
    if stack == [] then [] else Names(stack[..|stack| - 1]) + [stack[|stack| - 1].name]
  }

  /** The imports walked so far are in order. */
  predicate WalkedOk(w: World, f: Frame) {
    && f.name in w.images && f.next <= |w.images[f.name].imports|
    && forall i :: 0 <= i < f.next ==> ImportOk(w, w.images[f.name].imports[i])
  }

  /** Each frame has walked to the frame above it. */
  predicate Walking(w: World, stack: seq<Frame>) {
    && (forall j :: 0 <= j < |stack| ==> WalkedOk(w, stack[j]))
    && (forall j :: 0 < j < |stack| ==> Imports(w, stack[j - 1].name, stack[j].name))
  }

  /** Whatever was visited is in order or still on the stack. */
  predicate Covered(w: World, visited: set<string>, stack: seq<Frame>)
    requires visited <= w.images.Keys
  {
    forall name :: name in visited ==> ImageOk(w, name) || name in Names(stack)
  }

  function Advanced(stack: seq<Frame>): seq<Frame>
    requires stack != []
  {
    stack[|stack| - 1 := stack[|stack| - 1].(next := stack[|stack| - 1].next + 1)]
  }

  lemma StacksArePaths(w: World, stack: seq<Frame>)
    requires Walking(w, stack)
    ensures IsImportPath(w, Names(stack))
  {
    var names := Names(stack);
    forall j | 0 < j < |names|
      ensures Imports(w, names[j - 1], names[j])
    {
      assert Imports(w, stack[j - 1].name, stack[j].name);
    }
  }

  lemma PoppingKeepsWalking(w: World, visited: set<string>, stack: seq<Frame>)
    requires visited <= w.images.Keys && stack != [] && Walking(w, stack) && Covered(w, visited, stack)
    requires var top := stack[|stack| - 1]; top.next == |w.images[top.name].imports|
    ensures Walking(w, stack[..|stack| - 1]) && Covered(w, visited, stack[..|stack| - 1])
  {
    var top := stack[|stack| - 1];
    assert WalkedOk(w, top);
    assert ImageOk(w, top.name);
  }

  lemma AdvancingKeepsWalking(w: World, visited: set<string>, stack: seq<Frame>)
    requires visited <= w.images.Keys && stack != [] && Walking(w, stack) && Covered(w, visited, stack)
    requires var top := stack[|stack| - 1];
             top.next < |w.images[top.name].imports| && ImportOk(w, w.images[top.name].imports[top.next])
    ensures Walking(w, Advanced(stack)) && Covered(w, visited, Advanced(stack))
  {
    assert Names(Advanced(stack)) == Names(stack);
  }

  lemma PushingKeepsWalking(w: World, visited: set<string>, stack: seq<Frame>, name: string)
    requires visited <= w.images.Keys && stack != [] && Walking(w, stack) && Covered(w, visited, stack)
    requires name in w.images && Imports(w, stack[|stack| - 1].name, name)
    ensures Walking(w, stack + [Frame(name, 0)]) && Covered(w, visited + {name}, stack + [Frame(name, 0)])
  {
    var pushed := stack + [Frame(name, 0)];
    forall j | 0 < j < |pushed|
      ensures Imports(w, pushed[j - 1].name, pushed[j].name)
    {
      assert j < |stack| ==> Imports(w, stack[j - 1].name, stack[j].name);
    }
    assert Names(pushed) == Names(stack) + [name];
  }

  /** The checks of one import, in the order of the search. */
  method CheckImport(w: World, chain: seq<string>, at: nat) returns (verdict: Verdict)
    requires Located(w, chain, at)
    ensures Justified(w, verdict) && !verdict.Conflicting? && !verdict.UnknownRoot? && !verdict.BadForward?
    ensures !verdict.Accepted? ==> verdict.chain == chain && verdict.at == at
    ensures verdict.Accepted? <==> ImportOk(w, Offender(w, chain, at))
  {
    var i := Offender(w, chain, at);
    if w.key(i.library).None? {
      return BadName(chain, at);
    }
    if Target(w, i).None? {
      return Accepted;
    }
    var key := Target(w, i).value;
    if key !in w.images {
      return Unresolved(chain, at);
    }
    for t := 0 to |i.targets|
      invariant forall u :: 0 <= u < t ==> i.targets[u] in w.images[key].exports
    {
      if i.targets[t] !in w.images[key].exports {
        return MissingTarget(chain, at, i.targets[t]);
      }
    }
    verdict := Accepted;
  }

  function Remaining(w: World, stack: seq<Frame>): int {
    if stack == [] || stack[|stack| - 1].name !in w.images then 0
    else |w.images[stack[|stack| - 1].name].imports| - stack[|stack| - 1].next
  }

  /** Depth-first search from one root over whatever `seen` does not cover yet. */
  method ValidateDependencyNode(w: World, root: string, seen: set<string>) returns (verdict: Verdict, visited: set<string>)
    requires seen <= w.images.Keys
    requires forall name :: name in seen ==> ImageOk(w, name)
    ensures Justified(w, verdict) && !verdict.Conflicting? && !verdict.BadForward?
    ensures verdict.UnknownRoot? <==> root !in w.images
    ensures !verdict.Accepted? && root in w.images ==> verdict.chain[0] == root
    ensures seen + {root} <= visited <= w.images.Keys + {root}
    ensures verdict.Accepted? ==> forall name :: name in visited ==> name in w.images && ImageOk(w, name)
    ensures !verdict.Accepted? && root in w.images ==> exists name :: name in w.images && !ImageOk(w, name)
  {
    visited := seen;
    if root in visited {
      return Accepted, visited;
    }
    visited := visited + {root};
    if root !in w.images {
      return UnknownRoot(root), visited;
    }
    var stack := [Frame(root, 0)];
    while stack != []
      invariant seen + {root} <= visited <= w.images.Keys
      invariant Walking(w, stack) && Covered(w, visited, stack)
      invariant stack != [] ==> stack[0].name == root
      decreases w.images.Keys - visited, |stack|, Remaining(w, stack)
    {
      var top := stack[|stack| - 1];
      assert WalkedOk(w, top);
      if top.next == |w.images[top.name].imports| {
        PoppingKeepsWalking(w, visited, stack);
        stack := stack[..|stack| - 1];
        continue;
      }
      StacksArePaths(w, stack);
      verdict := CheckImport(w, Names(stack), top.next);
      if !verdict.Accepted? {
        assert !ImageOk(w, top.name);
        return;
      }
      var target := Target(w, w.images[top.name].imports[top.next]);
      AdvancingKeepsWalking(w, visited, stack);
      stack := Advanced(stack);
      if target.Some? && target.value !in visited {
        PushingKeepsWalking(w, visited, stack, target.value);
        visited := visited + {target.value};
        stack := stack + [Frame(target.value, 0)];
      }
    }
    verdict := Accepted;
  }

  ghost predicate Acceptable(w: World) {
    && Disjoint(w)
    && (forall name :: name in w.images ==> ImageOk(w, name))
    && (forall n :: n in ForwardedExports.ForwardedNodes(w) ==> ForwardedExports.Ends(w, n))
  }

  /** The whole validation accepts exactly the packages that pass every flat check, in any order of roots. */
  method ValidateDependencyGraph(w: World) returns (verdict: Verdict)
    ensures verdict.Accepted? <==> Acceptable(w)
    ensures Justified(w, verdict)
  {
    var shared := w.external * w.images.Keys;
    assert Disjoint(w) <==> shared == {} by {
      assert forall name :: name in w.images && name in w.external ==> name in shared;
    }
    if shared != {} {
      var library :| library in shared;
      return Conflicting(library);
    }
    var todo, visited := w.images.Keys, {};
    while todo != {}
      invariant todo <= w.images.Keys && visited <= w.images.Keys
      invariant forall name :: name in visited ==> ImageOk(w, name)
      invariant w.images.Keys - todo <= visited
      decreases todo
    {
      var root :| root in todo;
      todo := todo - {root};
      verdict, visited := ValidateDependencyNode(w, root, visited);
      if !verdict.Accepted? {
        return;
      }
    }
    var forward := ForwardedExports.ValidateForwardedExports(w);
    verdict := if forward.Accepted? then Accepted else BadForward(forward);
  }
}
