/**
  The per-handle completion fence (`struct fastdup_handle_fence`): the number of
  accepted operations, the number applied, and a 64-bit mask of operations that
  completed out of order beyond the applied prefix.

  A 64-bit word is a natural number below `Pow2(64)` here: bit `i` of `x` is
  `Bit(x, i)`, setting a clear bit `k` adds `Pow2(k)`, and `>> 1` halves.
 */
module CompletionFence {
  import opened Basics

  const WINDOW: nat := 64

  predicate Bit(word: nat, i: nat) {
    if i == 0 then word % 2 == 1 else Bit(word / 2, i - 1)
  }

  datatype Fence = Fence(accepted: nat, applied: nat, completed: nat)

  const FRESH: Fence := Fence(0, 0, 0)

  predicate Pending(f: Fence, s: nat) {
    f.applied < s <= f.accepted && !Bit(f.completed, s - f.applied - 1)
  }

  /** The sequence numbers accepted and not yet completed. */
  ghost function Outstanding(f: Fence): set<nat> {
    set s | 0 <= s <= f.accepted && Pending(f, s)
  }

  /** The window fits one word, and no bit beyond the accepted numbers is set. */
  ghost predicate Windowed(f: Fence) {
    && f.applied <= f.accepted <= U64_MAX
    && f.accepted - f.applied <= WINDOW
    && f.completed < Pow2(f.accepted - f.applied)
  }

  /** Between operations the applied prefix is maximal as well: bit 0 is clear. */
  ghost predicate Valid(f: Fence) {
    Windowed(f) && !Bit(f.completed, 0)
  }

  predicate CanAccept(f: Fence) {
    f.accepted < U64_MAX && f.accepted - f.applied < WINDOW
  }

  /** `fastdup_handle_accept` on a fence with room. */
  function Accept(f: Fence): (g: Fence)
    requires CanAccept(f)
  {
    f.(accepted := f.accepted + 1)
  }

  predicate CanComplete(f: Fence, sequence: nat) {
    && f.applied < sequence <= f.accepted
    && sequence - f.applied <= WINDOW
    && !Bit(f.completed, sequence - f.applied - 1)
  }

  /** The `while ((completed & 1) != 0)` loop of `fastdup_handle_complete`. */
  function Slide(f: Fence): (g: Fence)
    decreases f.completed
  {
    if f.completed % 2 == 1
    then Slide(Fence(f.accepted, f.applied + 1, f.completed / 2))
    else f
  }

  function Mark(f: Fence, sequence: nat): (g: Fence)
    requires CanComplete(f, sequence)
  {
    f.(completed := f.completed + Pow2(sequence - f.applied - 1))
  }

  function Complete(f: Fence, sequence: nat): (g: Fence)
    requires CanComplete(f, sequence)
  {
    Slide(Mark(f, sequence))
  }

  // ---- bits ----

  lemma {:induction false} SetBit(word: nat, k: nat, i: nat)
    requires !Bit(word, k)
    ensures Bit(word + Pow2(k), i) <==> Bit(word, i) || i == k
    decreases k, i
  {
    if k == 0 {
      assert (word + 1) / 2 == word / 2;
    } else {
      assert (word + Pow2(k)) / 2 == word / 2 + Pow2(k - 1);
      if i > 0 {
        SetBit(word / 2, k - 1, i - 1);
      }
    }
  }

  lemma {:induction false} SetBitFits(word: nat, k: nat, n: nat)
    requires word < Pow2(n) && k < n && !Bit(word, k)
    ensures word + Pow2(k) < Pow2(n)
  {
    var half := Pow2(n - 1);
    assert Pow2(n) == 2 * half;
    if k == 0 {
      assert word % 2 == 0;
    } else {
      var bit := Pow2(k - 1);
      assert Pow2(k) == 2 * bit;
      SetBitFits(word / 2, k - 1, n - 1);
      assert word / 2 + bit < half && word <= 2 * (word / 2) + 1;
    }
  }

  lemma {:induction false} HighBitsClear(word: nat, n: nat, i: nat)
    requires word < Pow2(n) && n <= i
    ensures !Bit(word, i)
  {
    if i > 0 {
      HighBitsClear(word / 2, if n == 0 then 0 else n - 1, i - 1);
    }
  }

  lemma Doubles(n: nat)
    ensures Pow2(n) < Pow2(n + 1)
  {
  }

  // ---- the fence refines a set of outstanding numbers ----

  lemma AcceptAddsOne(f: Fence)
    requires Valid(f) && CanAccept(f)
    ensures Valid(Accept(f))
    ensures Outstanding(Accept(f)) == Outstanding(f) + {f.accepted + 1}
    ensures f.accepted + 1 !in Outstanding(f)
  {
    Doubles(f.accepted - f.applied);
    HighBitsClear(f.completed, f.accepted - f.applied, f.accepted - f.applied);
    assert f.accepted + 1 in Outstanding(Accept(f));
  }

  lemma MarkRemovesOne(f: Fence, sequence: nat)
    requires Windowed(f) && CanComplete(f, sequence)
    ensures Windowed(Mark(f, sequence))
    ensures Outstanding(Mark(f, sequence)) == Outstanding(f) - {sequence}
  {
    var k := sequence - f.applied - 1;
    SetBitFits(f.completed, k, f.accepted - f.applied);
    forall s | f.applied < s <= f.accepted
      ensures s in Outstanding(Mark(f, sequence)) <==> s in Outstanding(f) - {sequence}
    {
      SetBit(f.completed, k, s - f.applied - 1);
    }
  }

  lemma {:induction false} SlideKeepsOutstanding(f: Fence)
    requires Windowed(f)
    ensures Valid(Slide(f))
    ensures Slide(f).accepted == f.accepted
    ensures Outstanding(Slide(f)) == Outstanding(f)
    decreases f.completed
  {
    if f.completed % 2 == 1 {
      var g := Fence(f.accepted, f.applied + 1, f.completed / 2);
      SlideOnce(f);
      SlideKeepsOutstanding(g);
    }
  }

  lemma SlideOnce(f: Fence)
    requires Windowed(f) && f.completed % 2 == 1
    ensures f.applied < f.accepted
    ensures var g := Fence(f.accepted, f.applied + 1, f.completed / 2);
            Windowed(g) && Outstanding(g) == Outstanding(f)
  {
  }

  /** `fastdup_handle_complete` accepts exactly an outstanding number, and only once. */
  lemma CompleteRemovesOne(f: Fence, sequence: nat)
    requires Valid(f)
    ensures CanComplete(f, sequence) <==> sequence in Outstanding(f)
    ensures CanComplete(f, sequence) ==>
              && Valid(Complete(f, sequence))
              && Complete(f, sequence).accepted == f.accepted
              && Outstanding(Complete(f, sequence)) == Outstanding(f) - {sequence}
  {
    if CanComplete(f, sequence) {
      MarkRemovesOne(f, sequence);
      SlideKeepsOutstanding(Mark(f, sequence));
    }
  }

  /** `applied` is the longest completed prefix, so the fence is close-ready iff nothing is outstanding. */
  lemma AppliedIsLongestPrefix(f: Fence)
    requires Valid(f)
    ensures f.applied < f.accepted ==> f.applied + 1 in Outstanding(f)
    ensures forall s :: s in Outstanding(f) ==> f.applied < s <= f.accepted
    ensures f.accepted == f.applied <==> Outstanding(f) == {}
  {
  }

  // ---- whole runs of one handle ----

  datatype Operation = DoAccept | DoComplete(sequence: nat)

  /** One call; a refused call changes nothing, as in the source. */
  function Step(f: Fence, op: Operation): (g: Fence) {
    match op
    case DoAccept => if CanAccept(f) then Accept(f) else f
    case DoComplete(s) => if CanComplete(f, s) then Complete(f, s) else f
  }

  function RunFence(ops: seq<Operation>): (f: Fence) {
    if ops == [] then FRESH else Step(RunFence(ops[..|ops| - 1]), ops[|ops| - 1])
  }

  /** How many calls of the run completed `sequence` successfully. */
  function Completions(ops: seq<Operation>, sequence: nat): (n: nat) {
    if ops == [] then 0
    else
      var before := ops[..|ops| - 1];
      Completions(before, sequence)
      + if ops[|ops| - 1] == DoComplete(sequence) && CanComplete(RunFence(before), sequence) then 1 else 0
  }

  /** What one call does to the numbers handed out and the numbers outstanding. */
  lemma StepEffect(f: Fence, op: Operation)
    requires Valid(f)
    ensures Valid(Step(f, op))
    ensures op == DoAccept && CanAccept(f) ==>
              Step(f, op).accepted == f.accepted + 1
              && Outstanding(Step(f, op)) == Outstanding(f) + {f.accepted + 1}
    ensures op == DoAccept && !CanAccept(f) ==> Step(f, op) == f
    ensures op.DoComplete? ==>
              Step(f, op).accepted == f.accepted
              && Outstanding(Step(f, op)) == Outstanding(f) - {op.sequence}
              && (CanComplete(f, op.sequence) <==> op.sequence in Outstanding(f))
  {
    match op
    case DoAccept =>
      if CanAccept(f) { AcceptAddsOne(f); }
    case DoComplete(s) =>
      CompleteRemovesOne(f, s);
  }

  lemma {:induction false} RunStaysValid(ops: seq<Operation>)
    ensures Valid(RunFence(ops))
  {
    if ops != [] {
      RunStaysValid(ops[..|ops| - 1]);
      StepEffect(RunFence(ops[..|ops| - 1]), ops[|ops| - 1]);
    }
  }

  lemma {:induction false} CompletionsCount(ops: seq<Operation>, sequence: nat)
    ensures Completions(ops, sequence) ==
            if 1 <= sequence <= RunFence(ops).accepted && sequence !in Outstanding(RunFence(ops)) then 1 else 0
  {
    if ops != [] {
      var before := ops[..|ops| - 1];
      CompletionsCount(before, sequence);
      RunStaysValid(before);
      StepEffect(RunFence(before), ops[|ops| - 1]);
    }
  }

  /**
    Over every run: the fence stays valid, a number has been completed at most
    once, it has been completed exactly when it was accepted and is no longer
    outstanding, and `applied` counts the longest prefix of completed numbers.
   */
  lemma EveryNumberCompletesOnce(ops: seq<Operation>, sequence: nat)
    ensures Valid(RunFence(ops))
    ensures Completions(ops, sequence) <= 1
    ensures Completions(ops, sequence) == 1 <==>
            1 <= sequence <= RunFence(ops).accepted && sequence !in Outstanding(RunFence(ops))
    ensures 1 <= sequence <= RunFence(ops).applied ==> Completions(ops, sequence) == 1
    ensures sequence == RunFence(ops).applied + 1 ==> Completions(ops, sequence) == 0
  {
    RunStaysValid(ops);
    CompletionsCount(ops, sequence);
    AppliedIsLongestPrefix(RunFence(ops));
  }

  // ---- the C struct, updated in place ----

  class HandleFence {
    var accepted: nat
    var applied: nat
    var completed: nat

    ghost function View(): (f: Fence)
      reads this
    {
      Fence(accepted, applied, completed)
    }

    constructor ()
      ensures View() == FRESH && Valid(View())
      ensures fresh(this)
    {
      accepted, applied, completed := 0, 0, 0;
    }

    method AcceptNext() returns (ok: bool, sequence: nat)
      requires Valid(View())
      modifies this
      ensures Valid(View())
      ensures ok == CanAccept(old(View()))
      ensures if ok then View() == Accept(old(View())) && sequence == accepted
              else View() == old(View())
      ensures Outstanding(View()) == old(Outstanding(View())) + if ok then {sequence} else {}
    {
      if accepted == U64_MAX || accepted - applied >= WINDOW {
        return false, 0;
      }
      AcceptAddsOne(View());
      accepted := accepted + 1;
      return true, accepted;
    }

    method CompleteOne(sequence: nat) returns (ok: bool)
      requires Valid(View())
      modifies this
      ensures Valid(View())
      ensures ok == old(sequence in Outstanding(View()))
      ensures ok == CanComplete(old(View()), sequence)
      ensures View() == if ok then Complete(old(View()), sequence) else old(View())
      ensures Outstanding(View()) == old(Outstanding(View())) - {sequence}
    {
      CompleteRemovesOne(View(), sequence);
      if sequence <= applied || sequence > accepted || sequence - applied > WINDOW {
        return false;
      }
      if Bit(completed, sequence - applied - 1) {
        return false;
      }
      ghost var marked := Mark(View(), sequence);
      completed := completed + Pow2(sequence - applied - 1);
      while completed % 2 == 1
        invariant Slide(View()) == Slide(marked)
        decreases completed
      {
        applied := applied + 1;
        completed := completed / 2;
      }
      return true;
    }

    method CloseReady() returns (ready: bool)
      requires Valid(View())
      ensures ready <==> Outstanding(View()) == {}
    {
      AppliedIsLongestPrefix(View());
      return accepted == applied;
    }
  }
}
