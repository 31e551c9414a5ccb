/**
 The gate runs on packed counters: each of its steps leaves a stripe alone or is one
 operation of the counter, so a whole run of the gate is a run on machine words.
 */
module GateCounters {
  import opened Options
  import opened Bits
  import opened DrainGate
  import opened DrainGateSafety
  import C = SealableCounter

  /** Thread `t`, standing at `pc`, updates one counter from `x` to `y`; the plain release needs the idle lock. */
  predicate Operates(limit: nat, op: Option<C.Operation>, pc: Pc, x: Stripe, y: Stripe) {
    match op
    case None => y == x
    case Some(o) => C.StripeStep(limit, o, x) == C.Success(y) && (o.Release? ==> HasLock(pc))
  }

  lemma ReadersOperate(s: Gate, t: nat, s': Gate, i: nat, limit: nat) returns (op: Option<C.Operation>)
    requires ReaderStep(s, t, s') && i < |s.stripes| && i < |s'.stripes| && s'.stripes[i].active <= limit
    ensures Operates(limit, op, PcOf(s, t), s.stripes[i], s'.stripes[i])
  {
    op := if s'.stripes[i] == s.stripes[i] then None
          else if s'.stripes[i].active > s.stripes[i].active then Some(C.Acquire)
          else if PcOf(s, t).Releasing? then Some(C.Release)
          else Some(C.ReleaseWithoutNotification);
  }

  lemma WaitersOperate(s: Gate, t: nat, s': Gate, i: nat, limit: nat) returns (op: Option<C.Operation>)
    requires WaitStep(s, t, s') && i < |s.stripes| && i < |s'.stripes|
    ensures Operates(limit, op, PcOf(s, t), s.stripes[i], s'.stripes[i])
  {
    op := if s'.stripes[i] == s.stripes[i] then None else Some(C.MarkWaiting);
  }

  lemma AdministratorsOperate(s: Gate, t: nat, s': Gate, i: nat, limit: nat) returns (op: Option<C.Operation>)
    requires (ControlStep(s, t, s') || IdleSealStep(s, t, s')) && i < |s.stripes| && i < |s'.stripes|
    requires Shape(s.stripes, PcOf(s, t))
    ensures Operates(limit, op, PcOf(s, t), s.stripes[i], s'.stripes[i])
  {
    op := if s'.stripes[i] == s.stripes[i] then None
          else if PcOf(s, t).Reopening? then Some(C.Reopen)
          else if PcOf(s, t).Undoing? then Some(C.UndoIdleSeal)
          else if PcOf(s, t).Exchanging? then Some(C.IdleSeal)
          else Some(C.Seal);
  }

  /** Every step of the gate leaves a stripe alone or is one operation of its counter. */
  lemma StripesMoveByOperations(s: Gate, t: nat, s': Gate, i: nat, limit: nat) returns (op: Option<C.Operation>)
    requires Shape(s.stripes, PcOf(s, t)) && AnyStep(s, t, s')
    requires i < |s.stripes| && i < |s'.stripes| && s'.stripes[i].active <= limit
    ensures Operates(limit, op, PcOf(s, t), s.stripes[i], s'.stripes[i])
  {
    if ReaderStep(s, t, s') {
      op := ReadersOperate(s, t, s', i, limit);
    } else if WaitStep(s, t, s') {
      op := WaitersOperate(s, t, s', i, limit);
    } else {
      op := AdministratorsOperate(s, t, s', i, limit);
    }
  }

  /** The word stays, or one successful update of it is made. */
  ghost predicate WordMoves(width: nat, word: nat, word': nat)
    requires C.IsWidth(width)
  {
    word' == word || exists op :: C.WordStep(width, op, word) == C.Success(word')
  }

  lemma WordFollows(width: nat, s: Gate, s': Gate, i: nat, word: nat) returns (word': nat)
    requires C.IsWidth(width) && word < Pow2(width)
    requires Shaped(s) && Step(s, s') && i < |s.stripes| && i < |s'.stripes|
    requires C.Decode(width, word) == s.stripes[i] && C.Fits(width, s'.stripes[i])
    ensures word' < Pow2(width) && C.Decode(width, word') == s'.stripes[i] && WordMoves(width, word, word')
  {
    var t := WhoMoved(s, s');
    var op := StripesMoveByOperations(s, t, s', i, C.CountMask(width));
    if op.None? {
      word' := word;
    } else {
      C.StepRefines(width, op.value, word);
      var moved := C.WordStep(width, op.value, word);
      word' := moved.next;
    }
  }

  lemma StripeCountStays(s: Gate, s': Gate)
    requires Step(s, s')
    ensures |s'.stripes| == |s.stripes|
  {
    var t := WhoMoved(s, s');
    StepFrames(s, t, s');
  }

  /**
   A run of the gate whose counts fit the word is a run on words: at every instant stripe `i` is what its word reads as,
   and every change of the word is one successful update.
   */
  lemma {:induction false} RunsOnWords(width: nat, run: seq<Gate>, i: nat) returns (words: seq<nat>)
    requires C.IsWidth(width) && IsRun(run) && i < |run[0].stripes|
    requires forall n :: 0 <= n < |run| ==> i < |run[n].stripes| ==> C.Fits(width, run[n].stripes[i])
    ensures |words| == |run|
    ensures forall n :: 0 <= n < |run| ==>
      words[n] < Pow2(width) && i < |run[n].stripes| && C.Decode(width, words[n]) == run[n].stripes[i]
    ensures forall n :: 0 < n < |run| ==> WordMoves(width, words[n - 1], words[n])
    decreases |run|
  {
    if |run| == 1 {
      C.DecodeEncode(width, run[0].stripes[i]);
      words := [C.Encode(width, run[0].stripes[i])];
    } else {
      var last := |run| - 1;
      var shorter := run[..last];
      assert IsRun(shorter) by {
        forall n: nat | 0 < n < |shorter|
          ensures StepsTo(shorter, n)
        {
          assert StepsTo(run, n);
        }
      }
      words := RunsOnWords(width, shorter, i);
      assert words[last - 1] < Pow2(width) && C.Decode(width, words[last - 1]) == run[last - 1].stripes[i];
      assert Step(run[last - 1], run[last]) by {
        assert StepsTo(run, last);
      }
      StripeCountStays(run[last - 1], run[last]);
      assert Shaped(run[last - 1]) by {
        RunsKeepInv(run, last - 1);
      }
      var word := WordFollows(width, run[last - 1], run[last], i, words[last - 1]);
      words := words + [word];
    }
  }
}
