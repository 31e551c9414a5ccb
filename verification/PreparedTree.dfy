/**
 The closed-world snapshot of a staged directory tree, prepared under an entry and a
 byte budget. A file may change between the passes that an operation makes over it, a
 directory may be exchanged while it is walked; what is recorded is what was read.
 */
module PreparedTree {
  import opened Options
  import opened StableSnapshot

  const MAX_PREPARED_ENTRIES: nat := 100_000
  const MAX_PREPARED_BYTES: nat := 512 * 1024 * 1024
  const WORD: nat := 0x1_0000_0000_0000_0000

  /** A directory entry under its name key; a name that breaks the naming rule has none. */
  datatype Entry = Entry(key: Option<string>, node: Node)

  /**
   A file as one operation meets it: the length it was opened with, and what the first, second and third pass over
   it show. A directory: its identity when it is listed, its entries, and its identity when the walk ends.
   */
  datatype Node =
    | File(id: nat, size: Length, first: Pass, second: Pass, third: Pass)
    | Directory(id: nat, entries: seq<Entry>, closing: nat)
    | Special

  datatype PreparedEntry = PreparedEntry(key: string, prepared: Prepared)

  datatype Prepared =
    | PreparedFile(id: nat, bytes: Bytes)
    | PreparedDirectory(id: nat, keys: set<string>, entries: seq<PreparedEntry>)

  /** How a tree is read: bytes that may be shared, by path, and whether the platform reads everything twice. */
  datatype Reading = Reading(shared: map<seq<string>, Bytes>, rereads: bool)

  // Files.

  function Hint(how: Reading, path: seq<string>): Option<Bytes> {
    if path in how.shared then Some(how.shared[path]) else None
  }

  /** The pass is stable and no longer than the file was when it was opened. */
  predicate Fine(p: Pass, size: nat) {
    Stable(p) && p.before.len <= size
  }

  predicate Confirms(p: Pass, bytes: Bytes) {
    Stable(p) && Content(p.chunks) == bytes
  }

  /** The pass whose bytes are recorded: the first, or the second after a first that did not show the shared bytes. */
  function Taken(f: Node, hint: Option<Bytes>): Pass
    requires f.File?
  {
    if hint.Some? && Content(f.first.chunks) != hint.value then f.second else f.first
  }

  /** The pass after that one. */
  function Again(f: Node, hint: Option<Bytes>): Pass
    requires f.File?
  {
    if hint.Some? && Content(f.first.chunks) != hint.value then f.third else f.second
  }

  /** Every pass that preparing the file makes is stable, and a second look finds the same bytes. */
  predicate Readable(f: Node, hint: Option<Bytes>, rereads: bool)
    requires f.File?
  {
    && (hint.Some? ==> Fine(f.first, f.size))
    && Fine(Taken(f, hint), f.size)
    && (rereads ==> Confirms(Again(f, hint), Content(Taken(f, hint).chunks)))
  }

  // Well-formed trees and their totals.

  predicate NamesOk(es: seq<Entry>) {
    && (forall i :: 0 <= i < |es| ==> es[i].key.Some?)
    && (forall i, j :: 0 <= i < j < |es| ==> es[i].key != es[j].key)
  }

  function Keys(es: seq<Entry>): set<string> {
    if es == [] then {}
    else
      var last := es[|es| - 1].key;
      Keys(es[..|es| - 1]) + if last.Some? then {last.value} else {}
  }

  lemma {:induction false} KeysOfEntries(es: seq<Entry>, k: string)
    ensures k in Keys(es) <==> exists i :: 0 <= i < |es| && es[i].key == Some(k)
  {
    if es != [] {
      KeysOfEntries(es[..|es| - 1], k);
    }
  }

  /** Only regular readable files and unchanged directories, under valid names that differ by more than case. */
  predicate Wellformed(n: Node, path: seq<string>, how: Reading) {
    match n
    case File(_, _, _, _, _) => Readable(n, Hint(how, path), how.rereads)
    case Special => false
    case Directory(id, es, closing) =>
      && NamesOk(es) && closing == id
      && forall i :: 0 <= i < |es| ==> Wellformed(es[i].node, path + [es[i].key.value], how)
  }

  /** Entries below the first `i` entries of a directory, these included. */
  function EntriesBelow(d: Node, i: nat): nat
    requires d.Directory? && i <= |d.entries|
    decreases d, i
  {
    if i == 0 then 0
    else
      var child := d.entries[i - 1].node;
      EntriesBelow(d, i - 1) + 1 + if child.Directory? then EntriesBelow(child, |child.entries|) else 0
  }

  function BytesBelow(d: Node, i: nat): nat
    requires d.Directory? && i <= |d.entries|
    decreases d, i
  {
    if i == 0 then 0
    else
      var child := d.entries[i - 1].node;
      BytesBelow(d, i - 1) +
      match child
      case File(_, size, _, _, _) => size
      case Special => 0
      case Directory(_, es, _) => BytesBelow(child, |es|)
  }

  function TotalEntries(n: Node): nat {
    if n.Directory? then EntriesBelow(n, |n.entries|) else 0
  }

  function TotalBytes(n: Node): nat {
    match n
    case File(_, size, _, _, _) => size
    case Special => 0
    case Directory(_, es, _) => BytesBelow(n, |es|)
  }

  /** What a snapshot of the tree records. */
  function Snapshot(n: Node, path: seq<string>, how: Reading): Prepared
    requires Wellformed(n, path, how)
    decreases n, 1, 0
  {
    match n
    case File(id, _, _, _, _) => PreparedFile(id, Content(Taken(n, Hint(how, path)).chunks))
    case Directory(id, es, _) => PreparedDirectory(id, Keys(es), SnapshotBelow(n, |es|, path, how))
  }

  function SnapshotBelow(d: Node, i: nat, path: seq<string>, how: Reading): (ps: seq<PreparedEntry>)
    requires d.Directory? && Wellformed(d, path, how) && i <= |d.entries|
    ensures |ps| == i
    ensures forall j :: 0 <= j < i ==>
      ps[j] == PreparedEntry(d.entries[j].key.value, Snapshot(d.entries[j].node, path + [d.entries[j].key.value], how))
    decreases d, 0, i
  {
    if i == 0 then []
    else
      var e := d.entries[i - 1];
      SnapshotBelow(d, i - 1, path, how) + [PreparedEntry(e.key.value, Snapshot(e.node, path + [e.key.value], how))]
  }

  // Preparation.

  /** Entries and bytes accounted for so far. */
  class PreparedBudget {
    var entries: nat
    var bytes: nat

    predicate Within()
      reads this
    {
      entries <= MAX_PREPARED_ENTRIES && bytes <= MAX_PREPARED_BYTES
    }

    constructor ()
      ensures Within() && entries == 0 && bytes == 0
    {
      entries, bytes := 0, 0;
    }

    method AccountEntry() returns (ok: bool)
      requires Within()
      modifies this`entries
      ensures ok <==> old(entries) < MAX_PREPARED_ENTRIES
      ensures entries == old(entries) + 1
    {
      entries := entries + 1;
      ok := entries <= MAX_PREPARED_ENTRIES;
    }

    /** A sum past 64 bits is refused like any other past the limit. */
    method ReserveBytes(size: Length) returns (ok: bool)
      requires Within()
      modifies this`bytes
      ensures ok <==> old(bytes) + size <= MAX_PREPARED_BYTES
      ensures ok ==> bytes == old(bytes) + size
    {
      if bytes + size >= WORD {
        return false;
      }
      bytes := bytes + size;
      ok := bytes <= MAX_PREPARED_BYTES;
    }
  }

  /** One more entry is fine exactly when its name is valid and new. */
  lemma OneMoreName(es: seq<Entry>, e: Entry)
    requires NamesOk(es)
    ensures NamesOk(es + [e]) <==> e.key.Some? && e.key.value !in Keys(es)
    ensures e.key.Some? ==> Keys(es + [e]) == Keys(es) + {e.key.value}
  {
    var more := es + [e];
    assert more[..|more| - 1] == es && more[|es|] == e;
    if e.key.Some? {
      KeysOfEntries(es, e.key.value);
    }
    if e.key.Some? && e.key.value in Keys(es) {
      var i :| 0 <= i < |es| && es[i].key == e.key;
      assert more[i].key == more[|es|].key;
    }
  }

  /** Lists a directory under a limit; refuses invalid names, clashes and one entry too many. */
  method ReadDirectoryEntries(es: seq<Entry>, limit: nat) returns (r: Option<set<string>>)
    ensures r.Some? <==> |es| <= limit && NamesOk(es)
    ensures r.Some? ==> r.value == Keys(es)
  {
    var keys: set<string> := {};
    for i := 0 to |es|
      invariant i <= limit && NamesOk(es[..i]) && keys == Keys(es[..i]) && |keys| == i
    {
      if |keys| >= limit {
        return None;
      }
      var key := es[i].key;
      OneMoreName(es[..i], es[i]);
      assert es[..i] + [es[i]] == es[..i + 1];
      if key.None? || key.value in keys {
        return None;
      }
      keys := keys + {key.value};
    }
    assert es[..|es|] == es;
    r := Some(keys);
  }

  lemma {:induction false} TotalsGrow(d: Node, i: nat, j: nat)
    requires d.Directory? && i <= j <= |d.entries|
    ensures EntriesBelow(d, i) + (j - i) <= EntriesBelow(d, j)
    ensures BytesBelow(d, i) <= BytesBelow(d, j)
  {
    if i < j {
      TotalsGrow(d, i, j - 1);
    }
  }

  /** The budget left over by `entries` and `bytes` is enough for the node. */
  predicate Fits(n: Node, entries: nat, bytes: nat) {
    entries + TotalEntries(n) <= MAX_PREPARED_ENTRIES && bytes + TotalBytes(n) <= MAX_PREPARED_BYTES
  }

  lemma {:induction false} OneMoreEntry(d: Node, i: nat)
    requires d.Directory? && i < |d.entries|
    ensures EntriesBelow(d, i + 1) == EntriesBelow(d, i) + 1 + TotalEntries(d.entries[i].node)
    ensures BytesBelow(d, i + 1) == BytesBelow(d, i) + TotalBytes(d.entries[i].node)
  {
  }

  lemma {:induction false} EntryFits(d: Node, i: nat, entries: nat, bytes: nat)
    requires d.Directory? && i < |d.entries| && Fits(d, entries, bytes)
    ensures Fits(d.entries[i].node, entries + EntriesBelow(d, i) + 1, bytes + BytesBelow(d, i))
  {
    OneMoreEntry(d, i);
    TotalsGrow(d, i + 1, |d.entries|);
  }

  lemma {:induction false} WellformedEntry(d: Node, i: nat, path: seq<string>, how: Reading)
    requires d.Directory? && i < |d.entries| && Wellformed(d, path, how)
    ensures d.entries[i].key.Some? && Wellformed(d.entries[i].node, path + [d.entries[i].key.value], how)
  {
  }

  /** A bad entry, or one past the budget, spoils its directory. */
  lemma {:induction false} BadEntry(d: Node, i: nat, path: seq<string>, how: Reading, entries: nat, bytes: nat)
    requires d.Directory? && i < |d.entries| && d.entries[i].key.Some?
    requires var child := d.entries[i].node;
             !(Wellformed(child, path + [d.entries[i].key.value], how)
               && Fits(child, entries + EntriesBelow(d, i) + 1, bytes + BytesBelow(d, i)))
    ensures !(Wellformed(d, path, how) && Fits(d, entries, bytes))
  {
    if Fits(d, entries, bytes) {
      EntryFits(d, i, entries, bytes);
      if Wellformed(d, path, how) {
        WellformedEntry(d, i, path, how);
      }
    }
  }

  predicate Records(es: seq<Entry>, ps: seq<PreparedEntry>, path: seq<string>, how: Reading) {
    && |ps| <= |es|
    && forall j :: 0 <= j < |ps| ==>
         && es[j].key.Some? && Wellformed(es[j].node, path + [es[j].key.value], how)
         && ps[j] == PreparedEntry(es[j].key.value, Snapshot(es[j].node, path + [es[j].key.value], how))
  }

  lemma {:induction false} RecordedDirectory(d: Node, ps: seq<PreparedEntry>, path: seq<string>, how: Reading)
    requires d.Directory? && NamesOk(d.entries) && d.closing == d.id
    requires Records(d.entries, ps, path, how) && |ps| == |d.entries|
    ensures Wellformed(d, path, how) && Snapshot(d, path, how) == PreparedDirectory(d.id, Keys(d.entries), ps)
  {
    assert ps == SnapshotBelow(d, |ps|, path, how);
  }

  /** Looks at the file once more where the platform does, and records the bytes. */
  method Confirm(id: nat, bytes: Bytes, again: Pass, rereads: bool) returns (r: Option<Prepared>)
    ensures r.Some? <==> (rereads ==> Confirms(again, bytes))
    ensures r.Some? ==> r.value == PreparedFile(id, bytes)
  {
    if rereads {
      var same := CompareStableSnapshot(again, bytes, None);
      if !same.Ok? || !same.value {
        return None;
      }
    }
    r := Some(PreparedFile(id, bytes));
  }

  /** Takes the bytes of a file, from a matching shared copy where there is one. */
  method PrepareFile(f: Node, path: seq<string>, how: Reading) returns (r: Option<Prepared>)
    requires f.File?
    ensures r.Some? <==> Wellformed(f, path, how)
    ensures r.Some? ==> r.value == Snapshot(f, path, how)
  {
    var taken, again := f.first, f.second;
    if path in how.shared {
      var same := CompareStableSnapshot(f.first, how.shared[path], Some(f.size));
      if !same.Ok? {
        return None;
      }
      if same.value {
        r := Confirm(f.id, how.shared[path], f.second, how.rereads);
        return;
      }
      taken, again := f.second, f.third;
    }
    var bytes := ReadStableSnapshot(taken, Some(f.size));
    if !bytes.Ok? {
      return None;
    }
    r := Confirm(f.id, bytes.value, again, how.rereads);
  }

  /**
   Prepares one entry. It succeeds exactly on a well-formed node that fits the budget, records what was read of it,
   and accounts for exactly the node's totals.
   */
  method PrepareDirectoryEntry(n: Node, path: seq<string>, how: Reading, budget: PreparedBudget) returns (r: Option<Prepared>)
    requires budget.Within()
    modifies budget
    ensures r.Some? <==> Wellformed(n, path, how) && Fits(n, old(budget.entries) + 1, old(budget.bytes))
    ensures r.Some? ==>
      && r.value == Snapshot(n, path, how) && budget.Within()
      && budget.entries == old(budget.entries) + 1 + TotalEntries(n)
      && budget.bytes == old(budget.bytes) + TotalBytes(n)
    decreases n, 1
  {
    var ok := budget.AccountEntry();
    if !ok {
      return None;
    }
    match n
    case Special =>
      r := None;
    case File(_, size, _, _, _) =>
      ok := budget.ReserveBytes(size);
      if !ok {
        return None;
      }
      r := PrepareFile(n, path, how);
    case Directory(_, _, _) =>
      r := PrepareDirectoryContents(n, path, how, budget);
  }

  /** Prepares everything below a directory, which must still be the same directory at the end. */
  method PrepareDirectoryContents(d: Node, path: seq<string>, how: Reading, budget: PreparedBudget) returns (r: Option<Prepared>)
    requires d.Directory? && budget.Within()
    modifies budget
    ensures r.Some? <==> Wellformed(d, path, how) && Fits(d, old(budget.entries), old(budget.bytes))
    ensures r.Some? ==>
      && r.value == Snapshot(d, path, how) && budget.Within()
      && budget.entries == old(budget.entries) + TotalEntries(d)
      && budget.bytes == old(budget.bytes) + TotalBytes(d)
    decreases d, 0
  {
    var es := d.entries;
    TotalsGrow(d, 0, |es|);
    var keys := ReadDirectoryEntries(es, MAX_PREPARED_ENTRIES - budget.entries);
    if keys.None? {
      return None;
    }
    var prepared: seq<PreparedEntry> := [];
    for i := 0 to |es|
      invariant budget.Within()
      invariant budget.entries == old(budget.entries) + EntriesBelow(d, i)
      invariant budget.bytes == old(budget.bytes) + BytesBelow(d, i)
      invariant |prepared| == i && Records(es, prepared, path, how)
    {
      OneMoreEntry(d, i);
      var entry := PrepareDirectoryEntry(es[i].node, path + [es[i].key.value], how, budget);
      if entry.None? {
        BadEntry(d, i, path, how, old(budget.entries), old(budget.bytes));
        return None;
      }
      prepared := prepared + [PreparedEntry(es[i].key.value, entry.value)];
    }
    if d.closing != d.id {
      return None;
    }
    RecordedDirectory(d, prepared, path, how);
    r := Some(PreparedDirectory(d.id, keys.value, prepared));
  }

  // Undisturbed trees.

  /** All passes show the same stable bytes, of the length the file was opened with. */
  predicate Undisturbed(f: Node)
    requires f.File?
  {
    forall p :: p in [f.first, f.second, f.third] ==> Confirms(p, Content(f.first.chunks)) && p.before.len == f.size
  }

  /** A tree of regular files and directories with valid names that nothing disturbs. */
  predicate Proper(n: Node) {
    match n
    case File(_, _, _, _, _) => Undisturbed(n)
    case Special => false
    case Directory(id, es, closing) =>
      NamesOk(es) && closing == id && forall i :: 0 <= i < |es| ==> Proper(es[i].node)
  }

  /** The snapshot without hints, read once. */
  const PLAIN := Reading(map[], false)

  /** Nothing but the tree decides what is recorded: neither shared bytes, nor where it lies, nor how often it is read. */
  lemma {:induction false} HintsDoNotMatter(n: Node, path: seq<string>, how: Reading)
    requires Proper(n)
    ensures Wellformed(n, path, how) && Wellformed(n, [], PLAIN)
    ensures Snapshot(n, path, how) == Snapshot(n, [], PLAIN)
    decreases n
  {
    if n.File? {
      HintsDoNotMatterForAFile(n, path, how);
    } else {
      ProperIsWellformed(n, path, how);
      ProperIsWellformed(n, [], PLAIN);
      var es := n.entries;
      forall i | 0 <= i < |es|
        ensures SnapshotBelow(n, |es|, path, how)[i] == SnapshotBelow(n, |es|, [], PLAIN)[i]
      {
        var k := es[i].key.value;
        HintsDoNotMatter(es[i].node, path + [k], how);
        HintsDoNotMatter(es[i].node, [] + [k], PLAIN);
      }
      assert SnapshotBelow(n, |es|, path, how) == SnapshotBelow(n, |es|, [], PLAIN);
    }
  }

  lemma {:induction false} HintsDoNotMatterForAFile(f: Node, path: seq<string>, how: Reading)
    requires f.File? && Undisturbed(f)
    ensures Wellformed(f, path, how) && Wellformed(f, [], PLAIN)
    ensures Snapshot(f, path, how) == PreparedFile(f.id, Content(f.first.chunks)) == Snapshot(f, [], PLAIN)
  {
    var passes := [f.first, f.second, f.third];
    assert passes[0] in passes && passes[1] in passes && passes[2] in passes;
  }

  lemma {:induction false} ProperIsWellformed(n: Node, path: seq<string>, how: Reading)
    requires Proper(n)
    ensures Wellformed(n, path, how)
    decreases n
  {
    if n.File? {
      HintsDoNotMatterForAFile(n, path, how);
    } else {
      forall i | 0 <= i < |n.entries|
        ensures Wellformed(n.entries[i].node, path + [n.entries[i].key.value], how)
      {
        ProperIsWellformed(n.entries[i].node, path + [n.entries[i].key.value], how);
      }
    }
  }

  /** Even of a file that changes, only bytes that a stable pass has shown are recorded, never unread shared ones. */
  lemma RecordedBytesWereRead(f: Node, path: seq<string>, how: Reading)
    requires f.File? && Wellformed(f, path, how)
    ensures var bytes := Snapshot(f, path, how).bytes;
      && |bytes| <= f.size
      && (Confirms(f.first, bytes) || Confirms(f.second, bytes))
      && (how.rereads ==> (Confirms(f.first, bytes) && Confirms(f.second, bytes)) || (Confirms(f.second, bytes) && Confirms(f.third, bytes)))
  {
  }

  /**
   Prepares a staged tree with exactly the expected top-level entries. A tree that nothing disturbs is accepted exactly
   when it is within the two limits, and what is recorded is independent of the shared bytes.
   */
  method PrepareTree(d: Node, expected: set<string>, how: Reading) returns (r: Option<Prepared>)
    ensures r.Some? <==> d.Directory? && Wellformed(d, [], how) && Keys(d.entries) == expected && Fits(d, 0, 0)
    ensures r.Some? ==> r.value == Snapshot(d, [], how)
    ensures d.Directory? && Proper(d) ==> (r.Some? <==> Keys(d.entries) == expected && Fits(d, 0, 0))
    ensures d.Directory? && Proper(d) && r.Some? ==> Wellformed(d, [], PLAIN) && r.value == Snapshot(d, [], PLAIN)
  {
    if !d.Directory? {
      return None;
    }
    if Proper(d) {
      HintsDoNotMatter(d, [], how);
    }
    var budget := new PreparedBudget();
    var keys := ReadDirectoryEntries(d.entries, MAX_PREPARED_ENTRIES);
    if keys.None? || keys.value != expected {
      TotalsGrow(d, 0, |d.entries|);
      return None;
    }
    r := PrepareDirectoryContents(d, [], how, budget);
  }
}
