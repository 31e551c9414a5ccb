/**
 Verifying a directory tree against a prepared snapshot: it succeeds exactly when the
 tree is steady and shows, path by path, what the snapshot recorded.
 */
module PreparedTreeVerification {
  import opened Options
  import opened StableSnapshot
  import opened PreparedTree

  function Find(es: seq<Entry>, k: string): (r: Option<nat>)
    ensures r.Some? ==> r.value < |es| && es[r.value].key == Some(k)
  {
    if es == [] then None
    else if es[|es| - 1].key == Some(k) then Some(|es| - 1)
    else Find(es[..|es| - 1], k)
  }

  /** A first pass shows the bytes, and a second one where the platform makes it. */
  predicate Shown(f: Node, bytes: Bytes, rereads: bool)
    requires f.File?
  {
    Confirms(f.first, bytes) && (rereads ==> Confirms(f.second, bytes))
  }

  /** The node is what the snapshot recorded; a source must also be the same file objects. */
  predicate Matches(p: Prepared, n: Node, source: bool, rereads: bool) {
    match p
    case PreparedFile(id, bytes) => n.File? && Shown(n, bytes, rereads) && (source ==> n.id == id)
    case PreparedDirectory(id, keys, ps) =>
      && n.Directory? && n.id == id && n.closing == id
      && |n.entries| <= MAX_PREPARED_ENTRIES && NamesOk(n.entries) && Keys(n.entries) == keys
      && forall i :: 0 <= i < |ps| ==> EntryMatches(ps[i], n.entries, source, rereads)
  }

  predicate EntryMatches(p: PreparedEntry, es: seq<Entry>, source: bool, rereads: bool) {
    Find(es, p.key).Some? && Matches(p.prepared, es[Find(es, p.key).value].node, source, rereads)
  }

  method VerifyFile(id: nat, bytes: Bytes, n: Node, source: bool, rereads: bool) returns (ok: bool)
    ensures ok <==> Matches(PreparedFile(id, bytes), n, source, rereads)
    ensures ok <==>
      && n.File? && (source ==> n.id == id)
      && n.first.before == n.first.after && Content(n.first.chunks) == bytes && |bytes| == n.first.before.len
      && (rereads ==>
            n.second.before == n.second.after && Content(n.second.chunks) == bytes && |bytes| == n.second.before.len)
  {
    if !n.File? {
      return false;
    }
    var same := CompareStableSnapshot(n.first, bytes, Some(|bytes|));
    if !same.Ok? || !same.value {
      return false;
    }
    if rereads {
      same := CompareStableSnapshot(n.second, bytes, None);
      if !same.Ok? || !same.value {
        return false;
      }
    }
    ok := source ==> n.id == id;
  }

  method VerifyPrepared(p: Prepared, n: Node, source: bool, rereads: bool) returns (ok: bool)
    ensures ok <==> Matches(p, n, source, rereads)
    decreases p
  {
    match p
    case PreparedFile(id, bytes) =>
      ok := VerifyFile(id, bytes, n, source, rereads);
    case PreparedDirectory(id, keys, ps) =>
      if !n.Directory? || n.id != id {
        return false;
      }
      var actual := ReadDirectoryEntries(n.entries, MAX_PREPARED_ENTRIES);
      if actual.None? || actual.value != keys {
        return false;
      }
      for i := 0 to |ps|
        invariant forall j :: 0 <= j < i ==> EntryMatches(ps[j], n.entries, source, rereads)
      {
        var found := Find(n.entries, ps[i].key);
        if found.None? {
          return false;
        }
        var same := VerifyPrepared(ps[i].prepared, n.entries[found.value].node, source, rereads);
        if !same {
          return false;
        }
      }
      ok := n.closing == id;
  }

  // Views, path by path.

  datatype View = Missing | Opaque | Folder(id: nat) | Contents(id: nat, bytes: Bytes)

  /** What is found by following the keys of a path. */
  function Look(n: Node, path: seq<string>, source: bool): View
    decreases |path|
  {
    if path == [] then
      match n
      case File(id, _, first, _, _) => Contents(if source then id else 0, Content(first.chunks))
      case Directory(id, _, _) => Folder(id)
      case Special => Opaque
    else if n.Directory? && Find(n.entries, path[0]).Some? then
      Look(n.entries[Find(n.entries, path[0]).value].node, path[1..], source)
    else Missing
  }

  function FindPrepared(ps: seq<PreparedEntry>, k: string): (r: Option<nat>)
    ensures r.Some? ==> r.value < |ps| && ps[r.value].key == k
  {
    if ps == [] then None
    else if ps[|ps| - 1].key == k then Some(|ps| - 1)
    else FindPrepared(ps[..|ps| - 1], k)
  }

  /** What the snapshot recorded at a path. */
  function Recorded(p: Prepared, path: seq<string>, source: bool): View
    decreases |path|
  {
    if path == [] then
      match p
      case PreparedFile(id, bytes) => Contents(if source then id else 0, bytes)
      case PreparedDirectory(id, _, _) => Folder(id)
    else if p.PreparedDirectory? && FindPrepared(p.entries, path[0]).Some? then
      Recorded(p.entries[FindPrepared(p.entries, path[0]).value].prepared, path[1..], source)
    else Missing
  }

  ghost predicate Shows(n: Node, p: Prepared, source: bool) {
    forall path :: Look(n, path, source) == Recorded(p, path, source)
  }

  /** Regular files that are stable while they are looked at, unchanged directories, valid names. */
  predicate Steady(n: Node, rereads: bool) {
    match n
    case File(_, _, first, _, _) => Shown(n, Content(first.chunks), rereads)
    case Special => false
    case Directory(id, es, closing) =>
      NamesOk(es) && closing == id && forall i :: 0 <= i < |es| ==> Steady(es[i].node, rereads)
  }

  /** What preparation guarantees of a snapshot: its keys are those of its entries, each once, within the limit. */
  predicate Coherent(p: Prepared) {
    p.PreparedDirectory? ==>
      && |p.entries| <= MAX_PREPARED_ENTRIES && |p.keys| == |p.entries|
      && (forall i :: 0 <= i < |p.entries| ==> p.entries[i].key in p.keys && Coherent(p.entries[i].prepared))
      && (forall k :: k in p.keys ==> FindPrepared(p.entries, k).Some?)
      && (forall i, j :: 0 <= i < j < |p.entries| ==> p.entries[i].key != p.entries[j].key)
  }

  // Finding.

  lemma {:induction false} FindFinds(es: seq<Entry>, k: string)
    ensures Find(es, k).Some? <==> k in Keys(es)
  {
    if es != [] {
      FindFinds(es[..|es| - 1], k);
    }
  }

  lemma FindIsUnique(es: seq<Entry>, i: nat)
    requires NamesOk(es) && i < |es|
    ensures Find(es, es[i].key.value) == Some(i) && es[i].key.value in Keys(es)
  {
    KeysOfEntries(es, es[i].key.value);
    FindFinds(es, es[i].key.value);
  }

  lemma {:induction false} FindPreparedFinds(ps: seq<PreparedEntry>, k: string)
    ensures FindPrepared(ps, k).Some? <==> exists i :: 0 <= i < |ps| && ps[i].key == k
  {
    if ps != [] {
      FindPreparedFinds(ps[..|ps| - 1], k);
    }
  }

  lemma FindPreparedIsUnique(p: Prepared, i: nat)
    requires p.PreparedDirectory? && Coherent(p) && i < |p.entries|
    ensures FindPrepared(p.entries, p.entries[i].key) == Some(i)
  {
    FindPreparedFinds(p.entries, p.entries[i].key);
  }

  lemma CoherentKeys(p: Prepared, k: string)
    requires p.PreparedDirectory? && Coherent(p)
    ensures FindPrepared(p.entries, k).Some? <==> k in p.keys
  {
  }

  lemma {:induction false} KeyCount(es: seq<Entry>)
    requires NamesOk(es)
    ensures |Keys(es)| == |es|
  {
    if es != [] {
      var fewer := es[..|es| - 1];
      KeyCount(fewer);
      assert fewer + [es[|es| - 1]] == es;
      OneMoreName(fewer, es[|es| - 1]);
    }
  }

  // Directories show a snapshot entry by entry.

  lemma {:induction false} ShowsBelow(n: Node, p: Prepared, source: bool)
    requires n.Directory? && p.PreparedDirectory? && Coherent(p) && n.id == p.id && Keys(n.entries) == p.keys
    requires forall k :: k in p.keys ==> Find(n.entries, k).Some? && FindPrepared(p.entries, k).Some?
    requires forall k :: k in p.keys ==>
      Shows(n.entries[Find(n.entries, k).value].node, p.entries[FindPrepared(p.entries, k).value].prepared, source)
    ensures Shows(n, p, source)
  {
    forall path
      ensures Look(n, path, source) == Recorded(p, path, source)
    {
      if path != [] {
        FindFinds(n.entries, path[0]);
        CoherentKeys(p, path[0]);
      }
    }
  }

  lemma {:induction false} ShowsUnder(n: Node, p: Prepared, k: string, source: bool)
    requires n.Directory? && p.PreparedDirectory? && Shows(n, p, source)
    requires Find(n.entries, k).Some? && FindPrepared(p.entries, k).Some?
    ensures Shows(n.entries[Find(n.entries, k).value].node, p.entries[FindPrepared(p.entries, k).value].prepared, source)
  {
    var a, b := n.entries[Find(n.entries, k).value].node, p.entries[FindPrepared(p.entries, k).value].prepared;
    forall path
      ensures Look(a, path, source) == Recorded(b, path, source)
    {
      var longer := [k] + path;
      assert longer[1..] == path;
      assert Look(n, longer, source) == Recorded(p, longer, source);
    }
  }

  lemma {:induction false} SameKeys(n: Node, p: Prepared, k: string, source: bool)
    requires n.Directory? && p.PreparedDirectory? && Coherent(p) && Shows(n, p, source)
    ensures k in Keys(n.entries) <==> k in p.keys
  {
    FindFinds(n.entries, k);
    CoherentKeys(p, k);
    assert Look(n, [k], source) == Recorded(p, [k], source);
    PresentIsNotMissing(n, p, k, source);
  }

  lemma {:induction false} PresentIsNotMissing(n: Node, p: Prepared, k: string, source: bool)
    requires n.Directory? && p.PreparedDirectory?
    ensures Look(n, [k], source).Missing? <==> Find(n.entries, k).None?
    ensures Recorded(p, [k], source).Missing? <==> FindPrepared(p.entries, k).None?
  {
    assert [k][1..] == [];
  }

  // A verified tree is the recorded one.

  lemma {:induction false} VerifiedShows(p: Prepared, n: Node, source: bool, rereads: bool)
    requires Coherent(p) && Matches(p, n, source, rereads)
    ensures Steady(n, rereads) && Shows(n, p, source)
    decreases p
  {
    if p.PreparedDirectory? {
      forall k | k in p.keys
        ensures Find(n.entries, k).Some? && FindPrepared(p.entries, k).Some?
        ensures Steady(n.entries[Find(n.entries, k).value].node, rereads)
        ensures Shows(n.entries[Find(n.entries, k).value].node, p.entries[FindPrepared(p.entries, k).value].prepared, source)
      {
        var i := FindPrepared(p.entries, k).value;
        assert EntryMatches(p.entries[i], n.entries, source, rereads);
        VerifiedShows(p.entries[i].prepared, n.entries[Find(n.entries, k).value].node, source, rereads);
      }
      ShowsBelow(n, p, source);
      forall j | 0 <= j < |n.entries|
        ensures Steady(n.entries[j].node, rereads)
      {
        FindIsUnique(n.entries, j);
      }
    }
  }

  lemma {:induction false} ShownDirectory(p: Prepared, n: Node, source: bool, rereads: bool)
    requires p.PreparedDirectory? && Coherent(p) && Steady(n, rereads) && Shows(n, p, source)
    ensures n.Directory? && n.id == p.id && n.closing == p.id
    ensures |n.entries| <= MAX_PREPARED_ENTRIES && NamesOk(n.entries) && Keys(n.entries) == p.keys
  {
    assert Look(n, [], source) == Recorded(p, [], source);
    forall k
      ensures k in Keys(n.entries) <==> k in p.keys
    {
      SameKeys(n, p, k, source);
    }
    assert Keys(n.entries) == p.keys;
    KeyCount(n.entries);
  }

  lemma {:induction false} ShownIsVerified(p: Prepared, n: Node, source: bool, rereads: bool)
    requires Coherent(p) && Steady(n, rereads) && Shows(n, p, source)
    ensures Matches(p, n, source, rereads)
    decreases p
  {
    if p.PreparedDirectory? {
      ShownDirectory(p, n, source, rereads);
      forall i | 0 <= i < |p.entries|
        ensures EntryMatches(p.entries[i], n.entries, source, rereads)
      {
        var k := p.entries[i].key;
        FindPreparedIsUnique(p, i);
        FindFinds(n.entries, k);
        ShowsUnder(n, p, k, source);
        ShownIsVerified(p.entries[i].prepared, n.entries[Find(n.entries, k).value].node, source, rereads);
      }
    } else {
      assert Look(n, [], source) == Recorded(p, [], source);
    }
  }

  /**
   Verification against a prepared snapshot succeeds exactly when the tree is steady and shows the recorded directories
   and bytes at every path, whatever the sizes of the reads.
   */
  lemma VerifiedIffShown(p: Prepared, n: Node, source: bool, rereads: bool)
    requires Coherent(p)
    ensures Matches(p, n, source, rereads) <==> Steady(n, rereads) && Shows(n, p, source)
  {
    if Matches(p, n, source, rereads) {
      VerifiedShows(p, n, source, rereads);
    }
    if Steady(n, rereads) && Shows(n, p, source) {
      ShownIsVerified(p, n, source, rereads);
    }
  }

  // What preparation hands to verification.

  lemma {:induction false} SnapshotHasItsKeys(t: Node, path: seq<string>, how: Reading)
    requires t.Directory? && Wellformed(t, path, how)
    ensures var p := Snapshot(t, path, how);
      && |p.keys| == |p.entries| == |t.entries|
      && (forall i :: 0 <= i < |p.entries| ==> p.entries[i].key in p.keys)
      && (forall k :: k in p.keys ==> FindPrepared(p.entries, k).Some?)
      && (forall i, j :: 0 <= i < j < |p.entries| ==> p.entries[i].key != p.entries[j].key)
  {
    var p := Snapshot(t, path, how);
    KeyCount(t.entries);
    forall i | 0 <= i < |p.entries|
      ensures p.entries[i].key in p.keys
    {
      FindIsUnique(t.entries, i);
    }
    forall k | k in p.keys
      ensures FindPrepared(p.entries, k).Some?
    {
      KeysOfEntries(t.entries, k);
      var i :| 0 <= i < |t.entries| && t.entries[i].key == Some(k);
      assert p.entries[i].key == k;
      FindPreparedFinds(p.entries, k);
    }
    forall i, j | 0 <= i < j < |p.entries|
      ensures p.entries[i].key != p.entries[j].key
    {
      assert t.entries[i].key != t.entries[j].key;
    }
  }

  lemma {:induction false} SnapshotIsCoherent(t: Node, path: seq<string>, how: Reading)
    requires Wellformed(t, path, how) && Fits(t, 0, 0)
    ensures Coherent(Snapshot(t, path, how))
    decreases t
  {
    if t.Directory? {
      SnapshotHasItsKeys(t, path, how);
      TotalsGrow(t, 0, |t.entries|);
      forall i | 0 <= i < |t.entries|
        ensures Coherent(Snapshot(t, path, how).entries[i].prepared)
      {
        WellformedEntry(t, i, path, how);
        EntryFits(t, i, 0, 0);
        assert Fits(t.entries[i].node, 0, 0);
        SnapshotIsCoherent(t.entries[i].node, path + [t.entries[i].key.value], how);
      }
    }
  }

  lemma {:induction false} SteadyWhenProper(t: Node, rereads: bool)
    requires Proper(t)
    ensures Steady(t, rereads)
    decreases t
  {
    if t.File? {
      var passes := [t.first, t.second, t.third];
      assert passes[0] in passes && passes[1] in passes;
    } else {
      forall i | 0 <= i < |t.entries|
        ensures Steady(t.entries[i].node, rereads)
      {
        SteadyWhenProper(t.entries[i].node, rereads);
      }
    }
  }

  lemma {:induction false} ProperFileMatches(t: Node, path: seq<string>, how: Reading, source: bool, rereads: bool)
    requires t.File? && Undisturbed(t)
    ensures Wellformed(t, path, how) && Matches(Snapshot(t, path, how), t, source, rereads)
  {
    HintsDoNotMatterForAFile(t, path, how);
    SteadyWhenProper(t, rereads);
  }

  /** An undisturbed tree shows its own snapshot, however that was prepared. */
  lemma {:induction false} ProperMatchesItsSnapshot(t: Node, path: seq<string>, how: Reading, source: bool, rereads: bool)
    requires Proper(t) && Fits(t, 0, 0)
    ensures Wellformed(t, path, how) && Matches(Snapshot(t, path, how), t, source, rereads)
    decreases t
  {
    if t.File? {
      ProperFileMatches(t, path, how, source, rereads);
    } else {
      ProperIsWellformed(t, path, how);
      TotalsGrow(t, 0, |t.entries|);
      var ps := SnapshotBelow(t, |t.entries|, path, how);
      forall i | 0 <= i < |ps|
        ensures EntryMatches(ps[i], t.entries, source, rereads)
      {
        var e := t.entries[i];
        FindIsUnique(t.entries, i);
        EntryFits(t, i, 0, 0);
        assert Fits(e.node, 0, 0);
        ProperMatchesItsSnapshot(e.node, path + [e.key.value], how, source, rereads);
      }
    }
  }

  ghost predicate SameTree(u: Node, t: Node, source: bool) {
    forall path :: Look(u, path, source) == Look(t, path, source)
  }

  /**
   For an undisturbed tree accepted within the limits: any other tree is verified against its snapshot exactly when it
   is steady and shows the same directories and bytes at every path; in particular the tree itself is.
   */
  lemma VerifiedIffSame(t: Node, how: Reading, u: Node, source: bool, rereads: bool)
    requires Proper(t) && Fits(t, 0, 0)
    ensures Wellformed(t, [], how)
    ensures Matches(Snapshot(t, [], how), u, source, rereads)
       <==> Steady(u, rereads) && SameTree(u, t, source)
    ensures Matches(Snapshot(t, [], how), t, source, rereads)
  {
    ProperMatchesItsSnapshot(t, [], how, source, rereads);
    var p := Snapshot(t, [], how);
    SnapshotIsCoherent(t, [], how);
    VerifiedIffShown(p, t, source, rereads);
    VerifiedIffShown(p, u, source, rereads);
    SameAsOriginal(t, u, p, source);
  }

  lemma SameAsOriginal(t: Node, u: Node, p: Prepared, source: bool)
    requires Shows(t, p, source)
    ensures Shows(u, p, source) <==> SameTree(u, t, source)
  {
    forall path
      ensures Look(u, path, source) == Recorded(p, path, source) <==> Look(u, path, source) == Look(t, path, source)
    {
      assert Look(t, path, source) == Recorded(p, path, source);
    }
  }
}
