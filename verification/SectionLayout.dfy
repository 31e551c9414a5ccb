/**
 The mapped sections of a PE image: the validator's 32-bit arithmetic is proved to
 accept exactly the layouts whose page ranges are aligned, ordered, clear of the
 headers and inside the image.
 */
module SectionLayout {
  import opened Options
  import opened Bits

  const LIMIT: nat := 0x1_0000_0000

  /** An unsigned 32-bit header field. */
  type Word = x: nat | x < 0x1_0000_0000

  datatype Header = Header(sectionAlignment: Word, fileAlignment: Word, imageSize: Word, headersSize: Word)

  datatype Section = Section(virtualAddress: Word, virtualSize: Word, rawSize: Word, executable: bool)

  datatype Mapped = Mapped(start: Word, contentEnd: Word, executable: bool)

  predicate IsPowerOfTwo(x: nat) {
    x == 1 || (x > 1 && x % 2 == 0 && IsPowerOfTwo(x / 2))
  }

  predicate Consistent(h: Header) {
    && IsPowerOfTwo(h.sectionAlignment) && IsPowerOfTwo(h.fileAlignment)
    && h.fileAlignment <= h.sectionAlignment
    && (h.sectionAlignment >= 4096 || h.sectionAlignment == h.fileAlignment)
    && h.imageSize % h.sectionAlignment == 0
    && h.headersSize <= h.imageSize
  }

  lemma {:induction false} PowersOfTwoOnly(k: nat)
    ensures IsPowerOfTwo(Pow2(k))
  {
    if k > 0 {
      PowersOfTwoOnly(k - 1);
      assert Pow2(k) / 2 == Pow2(k - 1) && Pow2(k) % 2 == 0;
    }
  }

  /**
   What consistent headers are: both alignments are powers of two, the section alignment not the smaller, and equal to
   the file alignment when below a page of 4096; the image is a whole number of section units and holds its headers.
   */
  lemma ConsistentMeans(h: Header)
    ensures Consistent(h) <==>
      && (exists a: nat, f: nat :: h.sectionAlignment == Pow2(a) && h.fileAlignment == Pow2(f) && (a == f || (f < a && a >= 12)))
      && h.imageSize % h.sectionAlignment == 0 && h.headersSize <= h.imageSize
  {
    PowersAndPages();
    if IsPowerOfTwo(h.sectionAlignment) && IsPowerOfTwo(h.fileAlignment) {
      var a := PowersOfTwo(h.sectionAlignment);
      var f := PowersOfTwo(h.fileAlignment);
      CompareWithPage(a, f);
    }
    forall a: nat, f: nat | h.sectionAlignment == Pow2(a) && h.fileAlignment == Pow2(f)
      ensures IsPowerOfTwo(h.sectionAlignment) && IsPowerOfTwo(h.fileAlignment)
    {
      PowersOfTwoOnly(a);
      PowersOfTwoOnly(f);
    }
    forall a: nat, f: nat | h.sectionAlignment == Pow2(a) && h.fileAlignment == Pow2(f) && (a == f || (f < a && a >= 12))
      ensures h.fileAlignment <= h.sectionAlignment && (h.sectionAlignment >= 4096 || h.sectionAlignment == h.fileAlignment)
    {
      CompareWithPage(a, f);
    }
  }

  lemma PowersAndPages()
    ensures Pow2(12) == 4096
  {
  }

  lemma {:induction false} Pow2Increases(j: nat, k: nat)
    requires j < k
    ensures Pow2(j) < Pow2(k)
  {
    if j + 1 < k {
      Pow2Increases(j, k - 1);
    }
  }

  lemma CompareWithPage(a: nat, f: nat)
    ensures Pow2(f) <= Pow2(a) && (Pow2(a) >= 4096 || Pow2(a) == Pow2(f)) <==> a == f || (f < a && a >= 12)
  {
    PowersAndPages();
    if a < f {
      Pow2Increases(a, f);
    }
    if f < a {
      Pow2Increases(f, a);
    }
    if a < 12 {
      Pow2Increases(a, 12);
    }
    if 12 < a {
      Pow2Increases(12, a);
    }
  }

  /** Checked addition, then clearing the low bits with the complement of `alignment - 1`. */
  function AlignEnd(end: Word, alignment: Word): Option<nat>
    requires IsPowerOfTwo(alignment)
  {
    var sum := end + (alignment - 1);
    if sum >= LIMIT then None else Some(And(sum, LIMIT - 1 - (alignment - 1)))
  }

  // Rounding.

  /** `r` is the least multiple of `a` that is not below `x`. */
  ghost predicate IsRoundedUp(x: nat, a: nat, r: nat)
    requires a > 0
  {
    r >= x && r % a == 0 && forall m: nat :: m >= x && m % a == 0 ==> m >= r
  }

  function RoundUp(x: nat, a: nat): (r: nat)
    requires a > 0
  {
    (x + a - 1) - (x + a - 1) % a
  }

  lemma MultiplesAreApart(m: nat, n: nat, a: nat)
    requires a > 0 && m % a == 0 && n % a == 0 && m < n
    ensures m + a <= n
  {
    var p, q := m / a, n / a;
    assert m == p * a && n == q * a;
    ProductGrows(q - p, a);
  }

  lemma RemainderDropped(x: nat, a: nat)
    requires a > 0
    ensures (x - x % a) % a == 0
  {
    var q := x / a;
    assert x - x % a == q * a + 0;
    DivModUnique(q * a, a, q, 0);
  }

  lemma RoundUpIsLeast(x: nat, a: nat)
    requires a > 0
    ensures IsRoundedUp(x, a, RoundUp(x, a))
  {
    var r := RoundUp(x, a);
    RemainderDropped(x + a - 1, a);
    forall m: nat | m >= x && m % a == 0
      ensures m >= r
    {
      if m < r {
        MultiplesAreApart(m, r, a);
      }
    }
  }

  lemma {:induction false} PowersOfTwo(x: nat) returns (k: nat)
    requires IsPowerOfTwo(x)
    ensures x == Pow2(k)
  {
    if x == 1 {
      k := 0;
    } else {
      k := PowersOfTwo(x / 2);
      k := k + 1;
    }
  }

  lemma {:induction false} Pow2Grows(j: nat, k: nat)
    requires j <= k
    ensures Pow2(j) <= Pow2(k)
  {
    if j < k {
      Pow2Grows(j, k - 1);
    }
  }

  lemma {:induction false} Pow2Divides(j: nat, k: nat)
    requires j <= k
    ensures Pow2(k) % Pow2(j) == 0
  {
    if j == k {
      DivModUnique(Pow2(k), Pow2(k), 1, 0);
    } else {
      Pow2Divides(j, k - 1);
      var a, b := Pow2(j), Pow2(k - 1);
      assert b == (b / a) * a;
      assert 2 * b == (2 * (b / a)) * a + 0;
      DivModUnique(2 * b, a, 2 * (b / a), 0);
    }
  }

  lemma WordLimit()
    ensures Pow2(32) == LIMIT
  {
    assert Pow2(8) == 256;
    assert Pow2(16) == 65536;
    assert Pow2(24) == 16777216;
  }

  lemma AlignmentsDivideTheLimit(a: Word) returns (k: nat)
    requires IsPowerOfTwo(a)
    ensures k < 32 && a == Pow2(k) && LIMIT % a == 0
  {
    WordLimit();
    k := PowersOfTwo(a);
    if k >= 32 {
      Pow2Grows(32, k);
    }
    Pow2Divides(k, 32);
  }

  /** A sum past the word limit means that the next multiple is past it too. */
  lemma OverflowIsExact(end: Word, a: Word)
    requires IsPowerOfTwo(a)
    ensures end + (a - 1) < LIMIT <==> RoundUp(end, a) < LIMIT
  {
    var k := AlignmentsDivideTheLimit(a);
    RoundUpIsLeast(end, a);
    if end + (a - 1) >= LIMIT && RoundUp(end, a) < LIMIT {
      MultiplesAreApart(RoundUp(end, a), LIMIT, a);
    }
  }

  /** Masking with the complement drops the remainder. */
  lemma MaskDropsTheRemainder(sum: Word, a: Word)
    requires IsPowerOfTwo(a)
    ensures And(sum, LIMIT - 1 - (a - 1)) == sum - sum % a
  {
    var k := AlignmentsDivideTheLimit(a);
    WordLimit();
    AndHighMask(sum, k, 32);
    assert LIMIT - 1 - (a - 1) == Pow2(32) - Pow2(k);
  }

  lemma AlignEndValue(end: Word, a: Word)
    requires IsPowerOfTwo(a) && end + (a - 1) < LIMIT
    ensures AlignEnd(end, a) == Some(RoundUp(end, a))
  {
    var sum := end + (a - 1);
    MaskDropsTheRemainder(sum, a);
    assert RoundUp(end, a) == sum - sum % a;
  }

  /** The masked rounding is exact: the least multiple not below its input, refused exactly when that does not fit. */
  lemma AlignEndRoundsUp(end: Word, a: Word)
    requires IsPowerOfTwo(a)
    ensures AlignEnd(end, a) == if RoundUp(end, a) < LIMIT then Some(RoundUp(end, a)) else None
    ensures IsRoundedUp(end, a, RoundUp(end, a))
  {
    OverflowIsExact(end, a);
    RoundUpIsLeast(end, a);
    if end + (a - 1) < LIMIT {
      AlignEndValue(end, a);
    }
  }

  // Layouts.

  function Size(s: Section): (n: Word)
    ensures n >= s.virtualSize && n >= s.rawSize && (n == s.virtualSize || n == s.rawSize)
  {
    if s.virtualSize >= s.rawSize then s.virtualSize else s.rawSize
  }

  /** One past the last content byte, without a word limit. */
  function ContentEnd(s: Section): nat {
    s.virtualAddress + Size(s)
  }

  function Occupied(sections: seq<Section>): (r: seq<Section>)
    ensures forall s :: s in r ==> Size(s) > 0
  {
    if sections == [] then []
    else
      var last := sections[|sections| - 1];
      Occupied(sections[..|sections| - 1]) + if Size(last) == 0 then [] else [last]
  }

  /** Sections with content are kept, in their order; the others are dropped. */
  lemma {:induction false} OccupiedMeans(a: seq<Section>, b: seq<Section>, s: Section)
    ensures Occupied([]) == []
    ensures Occupied([s]) == if s.virtualSize > 0 || s.rawSize > 0 then [s] else []
    ensures Occupied(a + b) == Occupied(a) + Occupied(b)
    decreases |b|
  {
    if b == [] {
      assert a + b == a;
    } else {
      var last := |b| - 1;
      assert (a + b)[..|a + b| - 1] == a + b[..last];
      OccupiedMeans(a, b[..last], s);
    }
  }

  /** Page ranges are aligned, in order without overlap, clear of the headers and inside the image. */
  predicate WellPlaced(h: Header, ss: seq<Section>)
    requires h.sectionAlignment > 0
  {
    var a := h.sectionAlignment;
    && (forall i :: 0 <= i < |ss| ==>
          && ss[i].virtualAddress % a == 0
          && RoundUp(h.headersSize, a) <= ss[i].virtualAddress
          && RoundUp(ContentEnd(ss[i]), a) <= h.imageSize)
    && (forall i, j :: 0 <= i < j < |ss| ==> RoundUp(ContentEnd(ss[i]), a) <= ss[j].virtualAddress)
  }

  predicate ValidLayout(h: Header, sections: seq<Section>) {
    Consistent(h) && WellPlaced(h, Occupied(sections))
  }

  predicate Maps(ss: seq<Section>, ms: seq<Mapped>) {
    && |ss| == |ms|
    && forall i :: 0 <= i < |ss| ==>
         ms[i].start == ss[i].virtualAddress && ms[i].contentEnd == ContentEnd(ss[i]) && ms[i].executable == ss[i].executable
  }

  /** Where the next section may begin. */
  function LastEnd(h: Header, ss: seq<Section>): nat
    requires h.sectionAlignment > 0
  {
    RoundUp(if ss == [] then h.headersSize else ContentEnd(ss[|ss| - 1]), h.sectionAlignment)
  }

  /** One more section fits exactly when it passes the three tests against the previous end. */
  lemma Extending(h: Header, ss: seq<Section>, s: Section)
    requires h.sectionAlignment > 0 && WellPlaced(h, ss)
    ensures WellPlaced(h, ss + [s]) <==>
            && s.virtualAddress % h.sectionAlignment == 0
            && LastEnd(h, ss) <= s.virtualAddress
            && RoundUp(ContentEnd(s), h.sectionAlignment) <= h.imageSize
  {
    var a, all := h.sectionAlignment, ss + [s];
    assert all[|ss|] == s;
    if ss != [] {
      var last := |ss| - 1;
      assert all[last] == ss[last];
      RoundUpIsLeast(ContentEnd(ss[last]), a);
      assert LastEnd(h, ss) >= ss[last].virtualAddress;
    }
  }

  lemma OccupiedNext(sections: seq<Section>, i: nat)
    requires i < |sections|
    ensures Occupied(sections[..i + 1])
         == if Size(sections[i]) == 0 then Occupied(sections[..i]) else Occupied(sections[..i]) + [sections[i]]
  {
    assert sections[..i + 1][..i] == sections[..i];
  }

  lemma {:induction false} OccupiedPrefix(sections: seq<Section>, i: nat)
    requires i <= |sections|
    ensures Occupied(sections[..i]) <= Occupied(sections)
  {
    if i < |sections| {
      var shorter := sections[..|sections| - 1];
      OccupiedPrefix(shorter, i);
      assert shorter[..i] == sections[..i];
    } else {
      assert sections[..i] == sections;
    }
  }

  lemma PrefixesAreWellPlaced(h: Header, some: seq<Section>, all: seq<Section>)
    requires h.sectionAlignment > 0 && some <= all && WellPlaced(h, all)
    ensures WellPlaced(h, some)
  {
  }

  lemma BadPrefix(h: Header, sections: seq<Section>, i: nat)
    requires Consistent(h) && i <= |sections| && !WellPlaced(h, Occupied(sections[..i]))
    ensures !ValidLayout(h, sections)
  {
    OccupiedPrefix(sections, i);
    if WellPlaced(h, Occupied(sections)) {
      PrefixesAreWellPlaced(h, Occupied(sections[..i]), Occupied(sections));
    }
  }

  lemma HeadersAlwaysRound(h: Header)
    requires Consistent(h)
    ensures AlignEnd(h.headersSize, h.sectionAlignment) == Some(LastEnd(h, []))
  {
    AlignEndRoundsUp(h.headersSize, h.sectionAlignment);
    assert RoundUp(h.headersSize, h.sectionAlignment) <= h.imageSize;
  }

  /** Places one section after those `before`, or refuses it. */
  method PlaceSection(h: Header, ghost before: seq<Section>, previousEnd: nat, s: Section) returns (end: Option<nat>)
    requires Consistent(h) && WellPlaced(h, before) && previousEnd == LastEnd(h, before)
    ensures end.Some? <==> WellPlaced(h, before + [s])
    ensures end.Some? ==> end.value == LastEnd(h, before + [s]) && ContentEnd(s) < LIMIT
  {
    Extending(h, before, s);
    var contentEnd := s.virtualAddress + Size(s);
    RoundUpIsLeast(contentEnd, h.sectionAlignment);
    if contentEnd >= LIMIT {
      return None;
    }
    AlignEndRoundsUp(contentEnd, h.sectionAlignment);
    end := AlignEnd(contentEnd, h.sectionAlignment);
    if end.Some?
       && (s.virtualAddress % h.sectionAlignment != 0 || s.virtualAddress < previousEnd || end.value > h.imageSize) {
      end := None;
    }
  }

  /** Accepts exactly the valid layouts, and returns their occupied sections in order. */
  method ValidateMappedSections(h: Header, sections: seq<Section>) returns (mapped: Option<seq<Mapped>>)
    ensures mapped.Some? <==> ValidLayout(h, sections)
    ensures mapped.Some? ==> Maps(Occupied(sections), mapped.value)
  {
    if !Consistent(h) {
      return None;
    }
    HeadersAlwaysRound(h);
    var previousEnd := AlignEnd(h.headersSize, h.sectionAlignment).value;
    var result: seq<Mapped> := [];
    for i := 0 to |sections|
      invariant WellPlaced(h, Occupied(sections[..i]))
      invariant previousEnd == LastEnd(h, Occupied(sections[..i]))
      invariant Maps(Occupied(sections[..i]), result)
    {
      var s := sections[i];
      ghost var before := Occupied(sections[..i]);
      OccupiedNext(sections, i);
      if Size(s) == 0 {
        continue;
      }
      var end := PlaceSection(h, before, previousEnd, s);
      if end.None? {
        BadPrefix(h, sections, i + 1);
        return None;
      }
      previousEnd := end.value;
      result := result + [Mapped(s.virtualAddress, s.virtualAddress + Size(s), s.executable)];
    }
    assert sections[..|sections|] == sections;
    mapped := Some(result);
  }

  /** An export address belongs to at most one accepted section, which lies past the headers and inside the image. */
  lemma AddressesHaveOneSection(h: Header, sections: seq<Section>, mapped: seq<Mapped>, address: nat, i: nat, j: nat)
    requires ValidLayout(h, sections) && Maps(Occupied(sections), mapped)
    requires i < |mapped| && j < |mapped|
    requires mapped[i].start <= address < mapped[i].contentEnd && mapped[j].start <= address < mapped[j].contentEnd
    ensures i == j && h.headersSize <= address < h.imageSize
  {
    var ss, a := Occupied(sections), h.sectionAlignment;
    RoundUpIsLeast(ContentEnd(ss[i]), a);
    RoundUpIsLeast(ContentEnd(ss[j]), a);
    RoundUpIsLeast(h.headersSize, a);
  }
}
