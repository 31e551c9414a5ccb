/**
 The packed state word of a sealable counter: a seal bit, a waiting bit and an
 active count in one machine word of any width (32 and 64 in practice).
 */
module SealableCounter {
  import opened Bits
  import opened DrainGate

  datatype TransitionOutcome<+T> = Success(next: T) | Rejected | FailStop

  datatype ReleaseOutcome = StillActive | BecameIdle

  /** `width` counts the bits of the word; the two top bits are flags. */
  predicate IsWidth(width: nat) {
    width >= 3
  }

  function SealedBit(width: nat): nat
    requires IsWidth(width)
  {
    Pow2(width - 1)
  }

  function WaitingBit(width: nat): nat
    requires IsWidth(width)
  {
    Pow2(width - 2)
  }

  function CountMask(width: nat): nat
    requires IsWidth(width)
  {
    WaitingBit(width) - 1
  }

  function WrappingAdd(width: nat, word: nat, n: nat): nat {
    (word + n) % Pow2(width)
  }

  function WrappingSubOne(width: nat, word: nat): nat {
    if word == 0 then Pow2(width) - 1 else word - 1
  }

  // The pure transitions on words.

  function AcquireStep(width: nat, word: nat): TransitionOutcome<nat>
    requires IsWidth(width)
  {
    if And(word, SealedBit(width)) != 0 then Rejected
    else if And(word, CountMask(width)) == CountMask(width) then FailStop
    else Success(WrappingAdd(width, word, 1))
  }

  function ReleaseStep(width: nat, word: nat): TransitionOutcome<nat>
    requires IsWidth(width)
  {
    if And(word, CountMask(width)) == 0 then FailStop
    else Success(WrappingSubOne(width, word))
  }

  function ReleaseWithoutNotificationStep(width: nat, word: nat): TransitionOutcome<nat>
    requires IsWidth(width)
  {
    var active := And(word, CountMask(width));
    if active == 0 then FailStop
    else if active == 1 && And(word, WaitingBit(width)) != 0 then Rejected
    else Success(WrappingSubOne(width, word))
  }

  function ReleaseOutcomeStep(width: nat, previous: nat): ReleaseOutcome
    requires IsWidth(width)
  {
    if And(previous, CountMask(width)) == 1 then BecameIdle else StillActive
  }

  function ReopenStep(width: nat, word: nat): TransitionOutcome<nat>
    requires IsWidth(width)
  {
    if And(word, SealedBit(width)) != 0 && And(word, CountMask(width)) == 0 then Success(0) else Rejected
  }

  function IdleSealStep(width: nat, word: nat): TransitionOutcome<nat>
    requires IsWidth(width)
  {
    if And(word, Or(SealedBit(width), CountMask(width))) == 0 then Success(Or(word, SealedBit(width)))
    else Rejected
  }

  function UndoIdleSealStep(width: nat, word: nat): TransitionOutcome<nat>
    requires IsWidth(width)
  {
    if And(word, SealedBit(width)) != 0 && And(word, CountMask(width)) == 0
    then Success(And(word, Pow2(width) - 1 - SealedBit(width)))
    else Rejected
  }

  // The abstract counter behind a word.

  /** Reads a word through the same masks the code uses. */
  function Decode(width: nat, word: nat): Stripe
    requires IsWidth(width)
  {
    Stripe(And(word, SealedBit(width)) != 0, And(word, WaitingBit(width)) != 0, And(word, CountMask(width)))
  }

  function Encode(width: nat, x: Stripe): nat
    requires IsWidth(width)
  {
    (if x.sealed then SealedBit(width) else 0) + (if x.waiting then WaitingBit(width) else 0) + x.active
  }

  predicate Fits(width: nat, x: Stripe)
    requires IsWidth(width)
  {
    x.active <= CountMask(width)
  }

  lemma WordIsFourQuarters(width: nat)
    requires IsWidth(width)
    ensures SealedBit(width) == WaitingBit(width) + WaitingBit(width)
    ensures Pow2(width) == SealedBit(width) + SealedBit(width)
    ensures WaitingBit(width) > 1
  {
    assert Pow2(width - 2) == 2 * Pow2(width - 3);
  }

  lemma CountOf(width: nat, x: Stripe)
    requires IsWidth(width) && Fits(width, x)
    ensures And(Encode(width, x), CountMask(width)) == x.active
  {
    WordIsFourQuarters(width);
    AndMask(Encode(width, x), width - 2);
    var quarters := (if x.sealed then 2 else 0) + (if x.waiting then 1 else 0);
    DivModUnique(Encode(width, x), WaitingBit(width), quarters, x.active);
  }

  lemma WaitingOf(width: nat, x: Stripe)
    requires IsWidth(width) && Fits(width, x)
    ensures And(Encode(width, x), WaitingBit(width)) != 0 <==> x.waiting
  {
    WordIsFourQuarters(width);
    AndBit(Encode(width, x), width - 2);
    var quarters := (if x.sealed then 2 else 0) + (if x.waiting then 1 else 0);
    DivModUnique(Encode(width, x), WaitingBit(width), quarters, x.active);
  }

  lemma SealedOf(width: nat, x: Stripe)
    requires IsWidth(width) && Fits(width, x)
    ensures And(Encode(width, x), SealedBit(width)) != 0 <==> x.sealed
  {
    WordIsFourQuarters(width);
    AndBit(Encode(width, x), width - 1);
    var rest := Encode(width, x.(sealed := false));
    DivModUnique(Encode(width, x), SealedBit(width), if x.sealed then 1 else 0, rest);
  }

  lemma ClearingTheSeal(width: nat, x: Stripe)
    requires IsWidth(width) && Fits(width, x)
    ensures And(Encode(width, x), SealedBit(width) - 1) == Encode(width, x.(sealed := false))
  {
    WordIsFourQuarters(width);
    AndMask(Encode(width, x), width - 1);
    var rest := Encode(width, x.(sealed := false));
    DivModUnique(Encode(width, x), SealedBit(width), if x.sealed then 1 else 0, rest);
  }

  /** Every in-range triple has a word that reads back unchanged. */
  lemma DecodeEncode(width: nat, x: Stripe)
    requires IsWidth(width) && Fits(width, x)
    ensures Encode(width, x) < Pow2(width)
    ensures Decode(width, Encode(width, x)) == x
  {
    WordIsFourQuarters(width);
    CountOf(width, x);
    WaitingOf(width, x);
    SealedOf(width, x);
  }

  /** Every word is the encoding of the triple it reads as. */
  lemma EncodeDecode(width: nat, word: nat)
    requires IsWidth(width) && word < Pow2(width)
    ensures Fits(width, Decode(width, word))
    ensures Encode(width, Decode(width, word)) == word
  {
    WordIsFourQuarters(width);
    var q := WaitingBit(width);
    var sealed := word >= q + q;
    var low := if sealed then word - q - q else word;
    DecodeEncode(width, if low >= q then Stripe(sealed, true, low - q) else Stripe(sealed, false, low));
  }

  // Operations, on words and on triples.

  datatype Operation = Acquire | Release | ReleaseWithoutNotification | MarkWaiting | Seal
                     | IdleSeal | UndoIdleSeal | Reopen

  function WordStep(width: nat, op: Operation, word: nat): TransitionOutcome<nat>
    requires IsWidth(width)
  {
    match op
    case Acquire => AcquireStep(width, word)
    case Release => ReleaseStep(width, word)
    case ReleaseWithoutNotification => ReleaseWithoutNotificationStep(width, word)
    case MarkWaiting => Success(Or(word, WaitingBit(width)))
    case Seal => Success(Or(word, SealedBit(width)))
    case IdleSeal => IdleSealStep(width, word)
    case UndoIdleSeal => UndoIdleSealStep(width, word)
    case Reopen => ReopenStep(width, word)
  }

  function StripeStep(limit: nat, op: Operation, x: Stripe): TransitionOutcome<Stripe> {
    match op
    case Acquire =>
      if x.sealed then Rejected else if x.active == limit then FailStop else Success(x.(active := x.active + 1))
    case Release => if x.active == 0 then FailStop else Success(x.(active := x.active - 1))
    case ReleaseWithoutNotification =>
      if x.active == 0 then FailStop
      else if x.active == 1 && x.waiting then Rejected
      else Success(x.(active := x.active - 1))
    case MarkWaiting => Success(x.(waiting := true))
    case Seal => Success(x.(sealed := true))
    case IdleSeal => if x.sealed || x.active > 0 then Rejected else Success(x.(sealed := true))
    case UndoIdleSeal => if x.sealed && x.active == 0 then Success(x.(sealed := false)) else Rejected
    case Reopen => if x.sealed && x.active == 0 then Success(Stripe(false, false, 0)) else Rejected
  }

  /** The outcome on words, read as an outcome on triples. */
  predicate Matches(width: nat, concrete: TransitionOutcome<nat>, expected: TransitionOutcome<Stripe>)
    requires IsWidth(width)
  {
    match concrete
    case Success(word) => word < Pow2(width) && expected == Success(Decode(width, word))
    case Rejected => expected.Rejected?
    case FailStop => expected.FailStop?
  }

  lemma AcquireRefines(width: nat, word: nat)
    requires IsWidth(width) && word < Pow2(width)
    ensures Matches(width, WordStep(width, Acquire, word),
                    StripeStep(CountMask(width), Acquire, Decode(width, word)))
  {
    var x := Decode(width, word);
    EncodeDecode(width, word);
    if !x.sealed && x.active < CountMask(width) {
      DecodeEncode(width, x.(active := x.active + 1));
      assert Encode(width, x.(active := x.active + 1)) == word + 1;
      SmallMod(word + 1, Pow2(width));
    }
  }

  lemma ReleaseRefines(width: nat, op: Operation, word: nat)
    requires IsWidth(width) && word < Pow2(width)
    requires op.Release? || op.ReleaseWithoutNotification?
    ensures Matches(width, WordStep(width, op, word), StripeStep(CountMask(width), op, Decode(width, word)))
  {
    var x := Decode(width, word);
    EncodeDecode(width, word);
    if x.active > 0 {
      DecodeEncode(width, x.(active := x.active - 1));
      assert Encode(width, x.(active := x.active - 1)) == word - 1;
    }
  }

  lemma MarkWaitingRefines(width: nat, word: nat)
    requires IsWidth(width) && word < Pow2(width)
    ensures Matches(width, WordStep(width, MarkWaiting, word),
                    StripeStep(CountMask(width), MarkWaiting, Decode(width, word)))
  {
    var x := Decode(width, word);
    EncodeDecode(width, word);
    OrSetsTheBit(word, width - 2);
    assert Or(word, WaitingBit(width)) == Encode(width, x.(waiting := true));
    DecodeEncode(width, x.(waiting := true));
  }

  lemma SealRefines(width: nat, word: nat)
    requires IsWidth(width) && word < Pow2(width)
    ensures Matches(width, WordStep(width, Seal, word),
                    StripeStep(CountMask(width), Seal, Decode(width, word)))
  {
    var x := Decode(width, word);
    EncodeDecode(width, word);
    OrSetsTheBit(word, width - 1);
    assert Or(word, SealedBit(width)) == Encode(width, x.(sealed := true));
    DecodeEncode(width, x.(sealed := true));
  }

  lemma SealingRefines(width: nat, op: Operation, word: nat)
    requires IsWidth(width) && word < Pow2(width)
    requires op.IdleSeal? || op.Reopen?
    ensures Matches(width, WordStep(width, op, word), StripeStep(CountMask(width), op, Decode(width, word)))
  {
    var x := Decode(width, word);
    AndDistributes(word, SealedBit(width), CountMask(width));
    OrIsZero(And(word, SealedBit(width)), And(word, CountMask(width)));
    if op.IdleSeal? {
      SealRefines(width, word);
    } else {
      DecodeEncode(width, Stripe(false, false, 0));
    }
  }

  lemma UndoneWord(width: nat, word: nat)
    requires IsWidth(width) && word < Pow2(width)
    ensures And(word, Pow2(width) - 1 - SealedBit(width)) == Encode(width, Decode(width, word).(sealed := false))
    ensures Fits(width, Decode(width, word))
  {
    EncodeDecode(width, word);
    ClearingTheSeal(width, Decode(width, word));
    WordIsFourQuarters(width);
    assert Pow2(width) - 1 - SealedBit(width) == SealedBit(width) - 1;
  }

  lemma UndoingRefines(width: nat, word: nat)
    requires IsWidth(width) && word < Pow2(width)
    ensures Matches(width, WordStep(width, UndoIdleSeal, word),
                    StripeStep(CountMask(width), UndoIdleSeal, Decode(width, word)))
  {
    UndoneWord(width, word);
    DecodeEncode(width, Decode(width, word).(sealed := false));
  }

  lemma StepRefines(width: nat, op: Operation, word: nat)
    requires IsWidth(width) && word < Pow2(width)
    ensures Matches(width, WordStep(width, op, word), StripeStep(CountMask(width), op, Decode(width, word)))
  {
    match op
    case Acquire => AcquireRefines(width, word);
    case Release | ReleaseWithoutNotification => ReleaseRefines(width, op, word);
    case MarkWaiting => MarkWaitingRefines(width, word);
    case Seal => SealRefines(width, word);
    case IdleSeal | Reopen => SealingRefines(width, op, word);
    case UndoIdleSeal => UndoingRefines(width, word);
  }

  // Sequences of operations.

  /** Rejected operations leave the word alone; a fail-stop ends the process. */
  function WordRun(width: nat, ops: seq<Operation>, word: nat): TransitionOutcome<nat>
    requires IsWidth(width)
  {
    if ops == [] then Success(word)
    else
      match WordStep(width, ops[0], word)
      case FailStop => FailStop
      case Rejected => WordRun(width, ops[1..], word)
      case Success(next) => WordRun(width, ops[1..], next)
  }

  function StripeRun(limit: nat, ops: seq<Operation>, x: Stripe): TransitionOutcome<Stripe> {
    if ops == [] then Success(x)
    else
      match StripeStep(limit, ops[0], x)
      case FailStop => FailStop
      case Rejected => StripeRun(limit, ops[1..], x)
      case Success(next) => StripeRun(limit, ops[1..], next)
  }

  /** No sequence of operations lets the count reach the flags: the word always reads as the abstract triple. */
  lemma {:induction false} RunRefines(width: nat, ops: seq<Operation>, word: nat)
    requires IsWidth(width) && word < Pow2(width)
    ensures Matches(width, WordRun(width, ops, word), StripeRun(CountMask(width), ops, Decode(width, word)))
    decreases |ops|
  {
    if ops != [] {
      StepRefines(width, ops[0], word);
      match WordStep(width, ops[0], word)
      case FailStop =>
      case Rejected => RunRefines(width, ops[1..], word);
      case Success(next) => RunRefines(width, ops[1..], next);
    }
  }

  /** While a waiter is registered, fast releases never give up the last count. */
  lemma {:induction false} LastCountIsKept(width: nat, ops: seq<Operation>, word: nat)
    requires IsWidth(width) && word < Pow2(width)
    requires Decode(width, word).waiting && Decode(width, word).active > 0
    requires forall i :: 0 <= i < |ops| ==> !ops[i].Release?
    ensures var end := WordRun(width, ops, word);
      end.Success? ==> end.next < Pow2(width) && Decode(width, end.next).waiting && Decode(width, end.next).active > 0
    decreases |ops|
  {
    if ops != [] {
      StepRefines(width, ops[0], word);
      match WordStep(width, ops[0], word)
      case FailStop =>
      case Rejected => LastCountIsKept(width, ops[1..], word);
      case Success(next) => LastCountIsKept(width, ops[1..], next);
    }
  }

  lemma WidthsInUse()
    ensures SealedBit(32) == 0x8000_0000 && WaitingBit(32) == 0x4000_0000 && CountMask(32) == 0x3FFF_FFFF
    ensures SealedBit(64) == 0x8000_0000_0000_0000 && WaitingBit(64) == 0x4000_0000_0000_0000
    ensures CountMask(64) == 0x3FFF_FFFF_FFFF_FFFF
  {
    assert Pow2(8) == 0x100;
    assert Pow2(16) == 0x1_0000;
    assert Pow2(24) == 0x100_0000;
    assert Pow2(30) == 0x4000_0000;
    assert Pow2(38) == 0x40_0000_0000;
    assert Pow2(46) == 0x4000_0000_0000;
    assert Pow2(54) == 0x40_0000_0000_0000;
    assert Pow2(62) == 0x4000_0000_0000_0000;
  }

  /** One counter in memory. Every method is a single atomic update of `state`. */
  class Counter {
    const width: nat
    var state: nat

    ghost predicate Valid()
      reads this
    {
      IsWidth(width) && state < Pow2(width)
    }

    ghost function Value(): Stripe
      requires Valid()
      reads this
    {
      Decode(width, state)
    }

    constructor (width: nat, sealed: bool)
      requires IsWidth(width)
      ensures Valid() && this.width == width && Value() == Stripe(sealed, false, 0)
    {
      this.width := width;
      state := if sealed then SealedBit(width) else 0;
      DecodeEncode(width, Stripe(sealed, false, 0));
    }

    /** Applies one transition; nothing changes unless it succeeds. */
    method Update(op: Operation) returns (outcome: TransitionOutcome<nat>)
      requires Valid()
      modifies this
      ensures Valid()
      ensures Matches(width, outcome, StripeStep(CountMask(width), op, old(Value())))
      ensures Value() == match StripeStep(CountMask(width), op, old(Value()))
                         case Success(x) => x
                         case _ => old(Value())
    {
      StepRefines(width, op, state);
      outcome := WordStep(width, op, state);
      if outcome.Success? {
        state := outcome.next;
      }
    }

    /** The release that may need to notify: it became idle exactly when it gave up the only count. */
    method ReleaseOne() returns (stopped: bool, outcome: ReleaseOutcome)
      requires Valid()
      modifies this
      ensures Valid()
      ensures stopped <==> old(Value()).active == 0
      ensures !stopped ==> Value() == old(Value()).(active := old(Value()).active - 1)
      ensures !stopped ==> (outcome.BecameIdle? <==> Value().active == 0)
    {
      var previous := state;
      var step := Update(Release);
      stopped := step.FailStop?;
      outcome := ReleaseOutcomeStep(width, previous);
    }

    /** Registers a waiter and returns the count seen by the same update. */
    method RegisterWaiter() returns (active: nat)
      requires Valid()
      modifies this
      ensures Valid() && Value() == old(Value()).(waiting := true) && active == old(Value()).active
    {
      active := And(state, CountMask(width));
      var step := Update(MarkWaiting);
    }
  }
}
