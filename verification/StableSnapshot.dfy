/** Reading a file in chunks of any size while watching that it does not change. */
module StableSnapshot {
  import opened Options

  type Bytes = seq<bv8>

  /** An unsigned 64-bit file length. */
  type Length = x: nat | x < 0x1_0000_0000_0000_0000

  /** What the file system reports about an open file. */
  datatype FileState = FileState(len: Length, stamp: nat)

  /**
   A file as one pass over it shows it: its state before and after, and what each read returned. A read that returns
   nothing is the end of the file.
   */
  datatype Pass = Pass(before: FileState, after: FileState, chunks: seq<Bytes>)

  datatype Result<+T> = Ok(value: T) | TooLong | Unstable

  /** Everything read before the end of the file. */
  function Content(chunks: seq<Bytes>): Bytes {
    if chunks == [] || chunks[0] == [] then [] else chunks[0] + Content(chunks[1..])
  }

  predicate Stable(p: Pass) {
    p.before == p.after && |Content(p.chunks)| == p.before.len
  }

  lemma {:induction false} ContentStep(chunks: seq<Bytes>, i: nat)
    requires i < |chunks| && (forall j :: 0 <= j < i ==> chunks[j] != [])
    ensures chunks[i] != [] ==> Content(chunks[..i + 1]) == Content(chunks[..i]) + chunks[i]
    ensures chunks[i] == [] ==> Content(chunks) == Content(chunks[..i])
    ensures chunks[i] != [] ==> Content(chunks[..i + 1]) <= Content(chunks)
  {
    if i > 0 {
      ContentStep(chunks[1..], i - 1);
      assert chunks[1..][..i] == chunks[..i + 1][1..];
      assert chunks[1..][..i - 1] == chunks[..i][1..];
    } else if chunks[0] != [] {
      assert chunks[..1][1..] == [] && Content(chunks[..1]) == chunks[0] + [];
    }
  }

  /** The content is what the reads return, one after the other, up to the first that returns nothing. */
  lemma {:induction false} ContentMeans(a: seq<Bytes>, b: seq<Bytes>, chunk: Bytes)
    requires forall j :: 0 <= j < |a| ==> a[j] != []
    ensures Content([]) == [] && Content([chunk]) == chunk
    ensures Content(a + b) == Content(a) + Content(b)
    ensures Content(a + [[]] + b) == Content(a)
    decreases |a|
  {
    assert [chunk][1..] == [];
    if a == [] {
      assert a + b == b && a + [[]] + b == [[]] + b;
    } else {
      ContentMeans(a[1..], b, chunk);
      assert (a + b)[1..] == a[1..] + b && (a + [[]] + b)[1..] == a[1..] + [[]] + b;
    }
  }

  /** Compares the file with `expected`, keeping no copy of it. */
  method CompareStableSnapshot(p: Pass, expected: Bytes, maximum: Option<nat>) returns (r: Result<bool>)
    ensures r.TooLong? <==> maximum.Some? && p.before.len > maximum.value
    ensures r.Ok? <==> Stable(p) && !r.TooLong?
    ensures r.Ok? ==> (r.value <==> Content(p.chunks) == expected)
  {
    if maximum.Some? && p.before.len > maximum.value {
      return TooLong;
    }
    var matches, offset, i := p.before.len == |expected|, 0, 0;
    while i < |p.chunks| && p.chunks[i] != []
      invariant 0 <= i <= |p.chunks| && forall j :: 0 <= j < i ==> p.chunks[j] != []
      invariant offset == |Content(p.chunks[..i])| <= p.before.len
      invariant matches ==> p.before.len == |expected|
      invariant matches <==> p.before.len == |expected| && Content(p.chunks[..i]) == expected[..offset]
    {
      ContentStep(p.chunks, i);
      var end := offset + |p.chunks[i]|;
      if end > p.before.len {
        return Unstable;
      }
      if matches {
        matches := expected[offset..end] == p.chunks[i];
        SliceComparison(Content(p.chunks[..i]), p.chunks[i], expected);
      } else if p.before.len == |expected| {
        SliceComparison(Content(p.chunks[..i]), p.chunks[i], expected);
      }
      offset := end;
      i := i + 1;
    }
    if i < |p.chunks| {
      ContentStep(p.chunks, i);
    } else {
      assert p.chunks[..i] == p.chunks;
    }
    if offset != p.before.len || p.before != p.after {
      return Unstable;
    }
    r := Ok(matches);
  }

  /** One more matching slice, after a matching prefix, is a matching longer prefix. */
  lemma SliceComparison(done: Bytes, chunk: Bytes, expected: Bytes)
    requires |done| + |chunk| <= |expected|
    ensures done + chunk == expected[..|done| + |chunk|] <==>
            done == expected[..|done|] && chunk == expected[|done|..|done| + |chunk|]
  {
    var longer := expected[..|done| + |chunk|];
    assert longer == expected[..|done|] + expected[|done|..|done| + |chunk|];
    assert (done + chunk)[..|done|] == done && (done + chunk)[|done|..] == chunk;
  }

  /** Copies the file: a first chunk, then the rest up to the announced length, then a probe for one byte too many. */
  method ReadStableSnapshot(p: Pass, maximum: Option<nat>) returns (r: Result<Bytes>)
    ensures r.TooLong? <==> maximum.Some? && p.before.len > maximum.value
    ensures r.Ok? <==> Stable(p) && !r.TooLong?
    ensures r.Ok? ==> r.value == Content(p.chunks)
  {
    if maximum.Some? && p.before.len > maximum.value {
      return TooLong;
    }
    var snapshot: Bytes, i := [], 0;
    while i < |p.chunks| && p.chunks[i] != []
      invariant 0 <= i <= |p.chunks| && forall j :: 0 <= j < i ==> p.chunks[j] != []
      invariant snapshot == Content(p.chunks[..i]) && |snapshot| <= p.before.len
    {
      ContentStep(p.chunks, i);
      if |snapshot| + |p.chunks[i]| > p.before.len {
        // A chunk past the announced length is seen by the first read or by the probe.
        return Unstable;
      }
      snapshot := snapshot + p.chunks[i];
      i := i + 1;
    }
    if i < |p.chunks| {
      ContentStep(p.chunks, i);
    } else {
      assert p.chunks[..i] == p.chunks;
    }
    if |snapshot| != p.before.len || p.before != p.after {
      return Unstable;
    }
    r := Ok(snapshot);
  }
}
