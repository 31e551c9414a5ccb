/**
 What acceptance of a tree says about every place in it, and what its totals count:
 each entry at any depth once, each byte of each file once.
 */
module PreparedTreeLedger {
  import opened Options
  import opened StableSnapshot
  import opened PreparedTree

  /** A place in the tree, by positions in the directories on the way. */
  type Place = seq<nat>

  function NodeAt(n: Node, at: Place): Option<Node>
    decreases |at|
  {
    if at == [] then Some(n)
    else if n.Directory? && at[0] < |n.entries| then NodeAt(n.entries[at[0]].node, at[1..])
    else None
  }

  // Acceptance, place by place.

  /** A stable pass within the opened length and, where everything is read twice, a next one with the same bytes. */
  predicate Vouched(size: nat, p: Pass, next: Pass, rereads: bool) {
    && p.before == p.after && |Content(p.chunks)| == p.before.len <= size
    && (rereads ==>
          next.before == next.after && |Content(next.chunks)| == next.before.len && Content(next.chunks) == Content(p.chunks))
  }

  /** What is true of one node of an accepted tree. */
  predicate Acceptable(n: Node, rereads: bool) {
    match n
    case Special => false
    case File(_, size, first, second, third) => Vouched(size, first, second, rereads) || Vouched(size, second, third, rereads)
    case Directory(id, es, closing) =>
      && closing == id
      && (forall i :: 0 <= i < |es| ==> es[i].key.Some?)
      && (forall i, j :: 0 <= i < j < |es| ==> es[i].key != es[j].key)
  }

  /** In an accepted tree every node at every depth was acceptable. */
  lemma {:induction false} AcceptedEverywhere(n: Node, path: seq<string>, how: Reading, at: Place)
    requires Wellformed(n, path, how) && NodeAt(n, at).Some?
    ensures Acceptable(NodeAt(n, at).value, how.rereads)
    decreases |at|
  {
    if at != [] {
      WellformedEntry(n, at[0], path, how);
      AcceptedEverywhere(n.entries[at[0]].node, path + [n.entries[at[0]].key.value], how, at[1..]);
    }
  }

  // Totals.

  function Under(k: nat, places: seq<Place>): (r: seq<Place>)
    ensures |r| == |places| && forall i :: 0 <= i < |places| ==> r[i] == [k] + places[i]
  {
    if places == [] then [] else Under(k, places[..|places| - 1]) + [[k] + places[|places| - 1]]
  }

  /** The places below the first `i` entries of a directory. */
  function PlacesBelow(d: Node, i: nat): seq<Place>
    requires d.Directory? && i <= |d.entries|
    decreases d, i
  {
    if i == 0 then []
    else
      var child := d.entries[i - 1].node;
      PlacesBelow(d, i - 1) + [[i - 1]]
      + Under(i - 1, if child.Directory? then PlacesBelow(child, |child.entries|) else [])
  }

  function Places(n: Node): seq<Place> {
    if n.Directory? then PlacesBelow(n, |n.entries|) else []
  }

  lemma {:induction false} PlacesAreBelow(d: Node, i: nat, at: Place)
    requires d.Directory? && i <= |d.entries|
    ensures at in PlacesBelow(d, i) <==> at != [] && at[0] < i && NodeAt(d, at).Some?
    decreases d, i
  {
    if i > 0 {
      PlacesAreBelow(d, i - 1, at);
      var child := d.entries[i - 1].node;
      var below := Places(child);
      if at != [] && at[0] == i - 1 {
        if child.Directory? {
          PlacesAreBelow(child, |child.entries|, at[1..]);
        }
        assert at == [i - 1] + at[1..];
        assert at == [i - 1] <==> at[1..] == [];
        UnderMeans(i - 1, below, at[1..]);
        NodesOfLeaves(child, at[1..]);
      } else {
        UnderBegins(i - 1, below, at);
      }
    }
  }

  lemma {:induction false} NodesOfLeaves(n: Node, at: Place)
    ensures !n.Directory? ==> (NodeAt(n, at).Some? <==> at == [])
    ensures n.Directory? && at != [] && NodeAt(n, at).Some? ==> at[0] < |n.entries|
  {
  }

  lemma {:induction false} UnderBegins(k: nat, places: seq<Place>, at: Place)
    requires at == [] || at[0] != k
    ensures at !in Under(k, places)
  {
  }

  lemma {:induction false} UnderMeans(k: nat, places: seq<Place>, at: Place)
    ensures [k] + at in Under(k, places) <==> at in places
  {
    if [k] + at in Under(k, places) {
      var j :| 0 <= j < |places| && Under(k, places)[j] == [k] + at;
      assert at == ([k] + at)[1..] && places[j] == ([k] + places[j])[1..];
    }
    if at in places {
      var j :| 0 <= j < |places| && places[j] == at;
      assert Under(k, places)[j] == [k] + at;
    }
  }

  predicate Distinct(places: seq<Place>) {
    forall i, j :: 0 <= i < j < |places| ==> places[i] != places[j]
  }

  lemma {:induction false} UnderIsDistinct(k: nat, places: seq<Place>)
    requires Distinct(places)
    ensures Distinct(Under(k, places))
  {
    forall i, j | 0 <= i < j < |places|
      ensures Under(k, places)[i] != Under(k, places)[j]
    {
      assert ([k] + places[i])[1..] == places[i] && ([k] + places[j])[1..] == places[j];
    }
  }

  lemma {:induction false} DistinctParts(a: seq<Place>, at: Place, c: seq<Place>)
    requires Distinct(a) && Distinct(c) && at !in a && at !in c
    requires forall x :: x in a ==> x !in c
    ensures Distinct(a + [at] + c)
  {
    var all := a + [at] + c;
    forall i, j | 0 <= i < j < |all|
      ensures all[i] != all[j]
    {
      if j < |a| {
        assert all[i] == a[i] && all[j] == a[j];
      } else if i > |a| {
        assert all[i] == c[i - |a| - 1] && all[j] == c[j - |a| - 1];
      } else if i == |a| {
        assert all[j] in c;
      } else {
        assert all[i] in a && (all[j] == at || all[j] in c);
      }
    }
  }

  lemma {:induction false} OneMorePlace(d: Node, i: nat)
    requires d.Directory? && i < |d.entries|
    ensures PlacesBelow(d, i + 1) == PlacesBelow(d, i) + [[i]] + Under(i, Places(d.entries[i].node))
  {
  }

  /** The places below entry `k` are new after those below the entries before it. */
  lemma {:induction false} StillDistinct(a: seq<Place>, k: nat, below: seq<Place>)
    requires Distinct(a) && Distinct(below)
    requires forall x :: x in a ==> x != [] && x[0] < k
    requires forall x :: x in below ==> x != []
    ensures Distinct(a + [[k]] + Under(k, below))
  {
    var c := Under(k, below);
    UnderIsDistinct(k, below);
    forall x | x in c
      ensures |x| >= 2 && x[0] == k
    {
      var j :| 0 <= j < |c| && c[j] == x;
      assert below[j] in below;
    }
    DistinctParts(a, [k], c);
  }

  lemma {:induction false} DistinctStep(d: Node, i: nat)
    requires d.Directory? && i < |d.entries|
    requires Distinct(PlacesBelow(d, i)) && Distinct(Places(d.entries[i].node))
    ensures Distinct(PlacesBelow(d, i + 1))
  {
    var a, below := PlacesBelow(d, i), Places(d.entries[i].node);
    forall x | x in a
      ensures x != [] && x[0] < i
    {
      PlacesAreBelow(d, i, x);
    }
    forall x | x in below
      ensures x != []
    {
      NoEmptyPlace(d.entries[i].node, x);
    }
    OneMorePlace(d, i);
    StillDistinct(a, i, below);
  }

  lemma {:induction false} PlacesAreDistinct(d: Node, i: nat)
    requires d.Directory? && i <= |d.entries|
    ensures Distinct(PlacesBelow(d, i))
    decreases d, i
  {
    if i > 0 {
      PlacesAreDistinct(d, i - 1);
      var child := d.entries[i - 1].node;
      if child.Directory? {
        PlacesAreDistinct(child, |child.entries|);
      }
      DistinctStep(d, i - 1);
    }
  }

  lemma {:induction false} NoEmptyPlace(n: Node, at: Place)
    requires at in Places(n)
    ensures at != []
  {
    PlacesAreBelow(n, |n.entries|, at);
  }

  function SizeAt(n: Node, at: Place): nat {
    if NodeAt(n, at).Some? && NodeAt(n, at).value.File? then NodeAt(n, at).value.size else 0
  }

  function SizesAt(n: Node, places: seq<Place>): nat {
    if places == [] then 0 else SizesAt(n, places[..|places| - 1]) + SizeAt(n, places[|places| - 1])
  }

  lemma {:induction false} SizesAppend(n: Node, a: seq<Place>, b: seq<Place>)
    ensures SizesAt(n, a + b) == SizesAt(n, a) + SizesAt(n, b)
    decreases |b|
  {
    if b == [] {
      assert a + b == a;
    } else {
      assert (a + b)[..|a + b| - 1] == a + b[..|b| - 1];
      SizesAppend(n, a, b[..|b| - 1]);
    }
  }

  lemma {:induction false} SizesUnder(d: Node, k: nat, places: seq<Place>)
    requires d.Directory? && k < |d.entries|
    ensures SizesAt(d, Under(k, places)) == SizesAt(d.entries[k].node, places)
    decreases |places|
  {
    if places != [] {
      var last := |places| - 1;
      SizesUnder(d, k, places[..last]);
      assert Under(k, places)[..last] == Under(k, places[..last]);
      assert ([k] + places[last])[1..] == places[last];
    }
  }

  lemma {:induction false} SizesOfParts(d: Node, a: seq<Place>, k: nat, below: seq<Place>)
    requires d.Directory? && k < |d.entries|
    ensures SizesAt(d, a + [[k]] + Under(k, below))
         == SizesAt(d, a) + SizeAt(d, [k]) + SizesAt(d.entries[k].node, below)
  {
    SizesAppend(d, a + [[k]], Under(k, below));
    SizesAppend(d, a, [[k]]);
    SizesUnder(d, k, below);
    assert [[k]][..0] == [];
  }

  lemma {:induction false} SizeOfEntry(d: Node, k: nat)
    requires d.Directory? && k < |d.entries|
    ensures SizeAt(d, [k]) == if d.entries[k].node.File? then d.entries[k].node.size else 0
  {
    assert [k][1..] == [];
    assert NodeAt(d.entries[k].node, [k][1..]) == Some(d.entries[k].node);
  }

  lemma {:induction false} EntriesStep(d: Node, i: nat)
    requires d.Directory? && i < |d.entries| && EntriesBelow(d, i) == |PlacesBelow(d, i)|
    requires TotalEntries(d.entries[i].node) == |Places(d.entries[i].node)|
    ensures EntriesBelow(d, i + 1) == |PlacesBelow(d, i + 1)|
  {
    OneMoreEntry(d, i);
    OneMorePlace(d, i);
  }

  lemma {:induction false} EntriesCountPlaces(d: Node, i: nat)
    requires d.Directory? && i <= |d.entries|
    ensures EntriesBelow(d, i) == |PlacesBelow(d, i)|
    decreases d, i
  {
    if i > 0 {
      EntriesCountPlaces(d, i - 1);
      var child := d.entries[i - 1].node;
      if child.Directory? {
        EntriesCountPlaces(child, |child.entries|);
      }
      EntriesStep(d, i - 1);
    }
  }

  lemma {:induction false} BytesStep(d: Node, i: nat)
    requires d.Directory? && i < |d.entries| && BytesBelow(d, i) == SizesAt(d, PlacesBelow(d, i))
    requires var child := d.entries[i].node;
             TotalBytes(child) == (if child.File? then child.size else 0) + SizesAt(child, Places(child))
    ensures BytesBelow(d, i + 1) == SizesAt(d, PlacesBelow(d, i + 1))
  {
    OneMoreEntry(d, i);
    OneMorePlace(d, i);
    SizesOfParts(d, PlacesBelow(d, i), i, Places(d.entries[i].node));
    SizeOfEntry(d, i);
  }

  lemma {:induction false} BytesCountPlaces(d: Node, i: nat)
    requires d.Directory? && i <= |d.entries|
    ensures BytesBelow(d, i) == SizesAt(d, PlacesBelow(d, i))
    decreases d, i
  {
    if i > 0 {
      BytesCountPlaces(d, i - 1);
      BytesOfNode(d.entries[i - 1].node);
      BytesStep(d, i - 1);
    }
  }

  lemma {:induction false} BytesOfNode(n: Node)
    ensures TotalBytes(n) == (if n.File? then n.size else 0) + SizesAt(n, Places(n))
    decreases n, if n.Directory? then |n.entries| + 1 else 0
  {
    if n.Directory? {
      BytesCountPlaces(n, |n.entries|);
    }
    TotalsOfNode(n);
  }

  lemma {:induction false} TotalsOfNode(n: Node)
    ensures n.Directory? ==> TotalEntries(n) == EntriesBelow(n, |n.entries|) && TotalBytes(n) == BytesBelow(n, |n.entries|)
    ensures !n.Directory? ==> TotalEntries(n) == 0 && TotalBytes(n) == (if n.File? then n.size else 0) && Places(n) == []
  {
  }

  /**
   The budget's totals of a tree: the number of its entries at any depth, and the opened lengths of all its files. The
   list counts every place of the tree except the root, and none twice.
   */
  lemma {:induction false} TotalsMeanTheWholeTree(d: Node, at: Place)
    requires d.Directory?
    ensures TotalEntries(d) == |Places(d)| && TotalBytes(d) == SizesAt(d, Places(d)) && Distinct(Places(d))
    ensures at in Places(d) <==> at != [] && NodeAt(d, at).Some?
  {
    EntriesCountPlaces(d, |d.entries|);
    BytesCountPlaces(d, |d.entries|);
    PlacesAreDistinct(d, |d.entries|);
    PlacesAreBelow(d, |d.entries|, at);
    NodesOfLeaves(d, at);
  }

  /** The two limits in numbers: a hundred thousand entries and half a gibibyte. */
  lemma {:induction false} LimitsInNumbers(d: Node)
    requires d.Directory?
    ensures Fits(d, 0, 0) <==> |Places(d)| <= 100_000 && SizesAt(d, Places(d)) <= 536_870_912
  {
    TotalsMeanTheWholeTree(d, []);
  }
}
