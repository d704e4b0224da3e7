/**
 * The sliding replay window of one onion hop: a highest sequence and a 128-bit bitmap.
 * The bitmap is proved to stand for the plain set of accepted sequences on every run.
 */
module Replay {
  import opened Common
  import opened Words

  const MAX_FUTURE_SEQUENCE_JUMP: nat := 64
  const REPLAY_WINDOW_BITS: nat := 128

  datatype Verdict = Fresh | OutOfWindow | Replayed

  datatype Window = Window(highest: Option<u64>, bitmap: nat)

  const EMPTY_WINDOW := Window(None, 0)

  function Check(w: Window, sequence: u64): Verdict {
    match w.highest
    case None => if sequence == 0 then Fresh else OutOfWindow
    case Some(highest) =>
      if sequence > highest then
        if sequence - highest <= MAX_FUTURE_SEQUENCE_JUMP then Fresh else OutOfWindow
      else
        var distance := highest - sequence;
        if distance >= REPLAY_WINDOW_BITS then OutOfWindow
        else if BitAnd(w.bitmap, Shl(1, distance, REPLAY_WINDOW_BITS)) != 0 then Replayed
        else Fresh
  }

  /** A shift by 128 or more is undefined in the source: its callers check the window first. */
  predicate Committable(w: Window, sequence: u64) {
    w.highest.Some? && sequence <= w.highest.value ==> w.highest.value - sequence < REPLAY_WINDOW_BITS
  }

  function Commit(w: Window, sequence: u64): Window
    requires Committable(w, sequence)
  {
    match w.highest
    case None => Window(Some(sequence), 1)
    case Some(highest) =>
      if sequence > highest then
        var shift := sequence - highest;
        Window(Some(sequence),
               if shift >= REPLAY_WINDOW_BITS then 1
               else BitOr(Shl(w.bitmap, shift, REPLAY_WINDOW_BITS), 1))
      else
        Window(w.highest, BitOr(w.bitmap, Shl(1, highest - sequence, REPLAY_WINDOW_BITS)))
  }

  // ----- The plain specification: the set of accepted sequences -----

  ghost predicate IsHighest(h: nat, accepted: set<nat>) {
    h in accepted && forall a | a in accepted :: a <= h
  }

  /** What a receiver that remembered every accepted sequence would let through. */
  ghost predicate Admissible(accepted: set<nat>, sequence: nat) {
    if accepted == {} then sequence == 0
    else
      && sequence !in accepted
      && exists h: nat :: IsHighest(h, accepted) && h < sequence + REPLAY_WINDOW_BITS
                     && sequence <= h + MAX_FUTURE_SEQUENCE_JUMP
  }

  /** Digits `0..bits` of `bitmap` tell which sequences below `h` are in the set. */
  ghost predicate Digits(bitmap: nat, h: nat, accepted: set<nat>, bits: nat) {
    forall i: nat | i < bits :: Bit(bitmap, i) <==> i <= h && h - i in accepted
  }

  /** Digit i of the bitmap is set exactly when `highest - i` was accepted. */
  ghost predicate Represents(w: Window, accepted: set<nat>) {
    match w.highest
    case None => accepted == {}
    case Some(h) =>
      && IsHighest(h, accepted)
      && Digits(w.bitmap, h, accepted, REPLAY_WINDOW_BITS)
  }

  lemma CheckDecidesTheSet(w: Window, accepted: set<nat>, sequence: u64)
    requires Represents(w, accepted)
    ensures Check(w, sequence) == Fresh <==> Admissible(accepted, sequence)
    ensures Check(w, sequence) == Replayed <==>
            sequence in accepted && w.highest.value < sequence + REPLAY_WINDOW_BITS
    ensures Check(w, sequence) == Fresh ==> Committable(w, sequence)
  {
    if w.highest.Some? {
      var h := w.highest.value;
      assert IsHighest(h, accepted);
      if sequence <= h && h - sequence < REPLAY_WINDOW_BITS {
        MaskTestsBit(w.bitmap, h - sequence, REPLAY_WINDOW_BITS);
        assert Bit(w.bitmap, h - sequence) <==> h - (h - sequence) in accepted;
      }
    }
  }

  lemma AdvanceKeepsDigits(bitmap: nat, h: nat, accepted: set<nat>, sequence: nat, bits: nat)
    requires Digits(bitmap, h, accepted, bits) && IsHighest(h, accepted) && h < sequence
    ensures Digits(BitOr(Shl(bitmap, sequence - h, bits), 1), sequence, accepted + {sequence}, bits)
  {
    var shift := sequence - h;
    forall i: nat | i < bits
      ensures Bit(BitOr(Shl(bitmap, shift, bits), 1), i) <==>
              i <= sequence && sequence - i in accepted + {sequence}
    {
      AdvancedBit(bitmap, shift, bits, i);
      if shift <= i {
        assert Bit(bitmap, i - shift) <==> i - shift <= h && h - (i - shift) in accepted;
      }
    }
  }

  lemma MarkKeepsDigits(bitmap: nat, h: nat, accepted: set<nat>, sequence: nat, bits: nat)
    requires Digits(bitmap, h, accepted, bits) && sequence <= h && h - sequence < bits
    ensures Digits(BitOr(bitmap, Shl(1, h - sequence, bits)), h, accepted + {sequence}, bits)
  {
    var marked := BitOr(bitmap, Shl(1, h - sequence, bits));
    forall i: nat | i < bits
      ensures Bit(marked, i) <==> i <= h && h - i in accepted + {sequence}
    {
      SetBit(bitmap, h - sequence, bits, i);
    }
  }

  lemma OnlyNewestDigit(bitmap: nat, accepted: set<nat>, sequence: nat, bits: nat)
    requires bitmap == 1
    requires forall a | a in accepted :: a + bits <= sequence
    ensures Digits(bitmap, sequence, accepted + {sequence}, bits)
  {
    forall i: nat | i < bits
      ensures Bit(bitmap, i) <==> i <= sequence && sequence - i in accepted + {sequence}
    {
      OneIsBitZero(i);
    }
  }

  lemma CommitAddsToTheSet(w: Window, accepted: set<nat>, sequence: u64)
    requires Represents(w, accepted) && Committable(w, sequence)
    ensures Represents(Commit(w, sequence), accepted + {sequence})
  {
    match w.highest {
      case None => OnlyNewestDigit(1, accepted, sequence, REPLAY_WINDOW_BITS);
      case Some(h) =>
        if sequence <= h {
          MarkKeepsDigits(w.bitmap, h, accepted, sequence, REPLAY_WINDOW_BITS);
        } else if sequence - h < REPLAY_WINDOW_BITS {
          AdvanceKeepsDigits(w.bitmap, h, accepted, sequence, REPLAY_WINDOW_BITS);
        } else {
          OnlyNewestDigit(1, accepted, sequence, REPLAY_WINDOW_BITS);
        }
    }
  }

  // ----- Runs -----

  /** One cell reaching the hop: its sequence, and whether its layer authenticates and decodes. */
  datatype Arrival = Arrival(sequence: u64, opens: bool)

  predicate Accepts(w: Window, a: Arrival) {
    a.opens && Check(w, a.sequence) == Fresh
  }

  /** The window after a run of check-then-commit, starting empty. */
  function WindowAfter(arrivals: seq<Arrival>): (w: Window)
    ensures Represents(w, AcceptedSet(arrivals))
  {
    if arrivals == [] then EMPTY_WINDOW
    else
      var w := WindowAfter(arrivals[..|arrivals| - 1]);
      var last := arrivals[|arrivals| - 1];
      var accepted := AcceptedSet(arrivals[..|arrivals| - 1]);
      CheckDecidesTheSet(w, accepted, last.sequence);
      if Accepts(w, last) then
        CommitAddsToTheSet(w, accepted, last.sequence);
        Commit(w, last.sequence)
      else w
  }

  /** The same run on the plain set, with no window, bitmap or shift. */
  ghost function AcceptedSet(arrivals: seq<Arrival>): set<nat> {
    if arrivals == [] then {}
    else
      var accepted := AcceptedSet(arrivals[..|arrivals| - 1]);
      var last := arrivals[|arrivals| - 1];
      if last.opens && Admissible(accepted, last.sequence) then accepted + {last.sequence} else accepted
  }

  predicate AcceptedAt(arrivals: seq<Arrival>, k: nat)
    requires k < |arrivals|
  {
    Accepts(WindowAfter(arrivals[..k]), arrivals[k])
  }

  lemma {:induction false} AcceptedStays(arrivals: seq<Arrival>, k: nat)
    requires k < |arrivals| && AcceptedAt(arrivals, k)
    ensures arrivals[k].sequence in AcceptedSet(arrivals)
    decreases |arrivals|
  {
    var front := arrivals[..|arrivals| - 1];
    if k == |arrivals| - 1 {
      CheckDecidesTheSet(WindowAfter(front), AcceptedSet(front), arrivals[k].sequence);
    } else {
      assert front[..k] == arrivals[..k];
      AcceptedStays(front, k);
    }
  }

  /** No run accepts one sequence twice. */
  lemma NoSequenceAcceptedTwice(arrivals: seq<Arrival>, i: nat, j: nat)
    requires i < j < |arrivals| && AcceptedAt(arrivals, i) && AcceptedAt(arrivals, j)
    ensures arrivals[i].sequence != arrivals[j].sequence
  {
    var before := arrivals[..j];
    assert before[..i] == arrivals[..i];
    AcceptedStays(before, i);
    CheckDecidesTheSet(WindowAfter(before), AcceptedSet(before), arrivals[j].sequence);
  }

  /** The accepted cells of a run, in order. */
  function AcceptedOnly(arrivals: seq<Arrival>): seq<Arrival> {
    if arrivals == [] then []
    else
      var front := arrivals[..|arrivals| - 1];
      var last := arrivals[|arrivals| - 1];
      AcceptedOnly(front) + (if Accepts(WindowAfter(front), last) then [last] else [])
  }

  /** Rejected cells leave no trace: the run without them ends in the same window. */
  lemma {:induction false} RejectedLeaveNoTrace(arrivals: seq<Arrival>)
    ensures WindowAfter(AcceptedOnly(arrivals)) == WindowAfter(arrivals)
    ensures AcceptedSet(AcceptedOnly(arrivals)) == AcceptedSet(arrivals)
    decreases |arrivals|
  {
    if arrivals != [] {
      var front := arrivals[..|arrivals| - 1];
      var last := arrivals[|arrivals| - 1];
      RejectedLeaveNoTrace(front);
      CheckDecidesTheSet(WindowAfter(front), AcceptedSet(front), last.sequence);
      var kept := AcceptedOnly(front);
      if Accepts(WindowAfter(front), last) {
        assert (kept + [last])[..|kept|] == kept;
      } else {
        assert kept + [] == kept;
      }
    }
  }

  /** The window as the source holds it, updated in place. */
  class ReplayWindow {
    var highest: Option<u64>
    var bitmap: nat

    function View(): Window
      reads this
    {
      Window(highest, bitmap)
    }

    constructor ()
      ensures View() == EMPTY_WINDOW
      ensures Represents(View(), {})
    {
      highest, bitmap := None, 0;
    }

    method Test(sequence: u64, ghost accepted: set<nat>) returns (verdict: Verdict)
      requires Represents(View(), accepted)
      ensures verdict == Check(View(), sequence)
      ensures verdict == Fresh <==> Admissible(accepted, sequence)
    {
      CheckDecidesTheSet(View(), accepted, sequence);
      if highest.None? {
        return if sequence == 0 then Fresh else OutOfWindow;
      }
      if sequence > highest.value {
        return if sequence - highest.value <= MAX_FUTURE_SEQUENCE_JUMP then Fresh else OutOfWindow;
      }
      var distance := highest.value - sequence;
      if distance >= REPLAY_WINDOW_BITS {
        return OutOfWindow;
      }
      if BitAnd(bitmap, Shl(1, distance, REPLAY_WINDOW_BITS)) != 0 {
        return Replayed;
      }
      return Fresh;
    }

    method Record(sequence: u64, ghost accepted: set<nat>)
      requires Represents(View(), accepted) && Committable(View(), sequence)
      modifies this
      ensures View() == Commit(old(View()), sequence)
      ensures Represents(View(), accepted + {sequence})
    {
      CommitAddsToTheSet(View(), accepted, sequence);
      if highest.None? {
        highest, bitmap := Some(sequence), 1;
      } else if sequence > highest.value {
        var shift := sequence - highest.value;
        bitmap := if shift >= REPLAY_WINDOW_BITS then 1
                  else BitOr(Shl(bitmap, shift, REPLAY_WINDOW_BITS), 1);
        highest := Some(sequence);
      } else {
        bitmap := BitOr(bitmap, Shl(1, highest.value - sequence, REPLAY_WINDOW_BITS));
      }
    }
  }
}
