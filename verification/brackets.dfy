/**
 * Bracket matching by linear scan, as done lazily at every loop boundary.
 *
 * `ScanForward` and `ScanBackward` follow the two scanning loops step by
 * step (position and nesting depth); `IsForwardMatch` and `IsBackwardMatch`
 * say independently, by counting brackets, which index is the matching one.
 * The lemmas below connect the two.
 */
module Brackets {
  import opened Instructions

  /** Nesting depth a stretch of instructions leaves open: opens minus closes. */
  function Depth(s: seq<Instr>): int
  {
    multiset(s)[Open] as int - multiset(s)[Close] as int
  }

  lemma DepthSnoc(file: seq<Instr>, lo: nat, hi: nat)
    requires lo <= hi < |file|
    ensures Depth(file[lo..hi + 1]) == Depth(file[lo..hi]) + Depth([file[hi]])
  {
    assert file[lo..hi + 1] == file[lo..hi] + [file[hi]];
  }

  lemma DepthCons(file: seq<Instr>, lo: nat, hi: nat)
    requires lo < hi <= |file|
    ensures Depth(file[lo..hi]) == Depth([file[lo]]) + Depth(file[lo + 1..hi])
  {
    assert file[lo..hi] == [file[lo]] + file[lo + 1..hi];
  }

  lemma DepthOne(x: Instr)
    ensures Depth([x]) == if x == Open then 1 else if x == Close then -1 else 0
  {
  }

  /** The depth after the forward scan passes over `x` without stopping. */
  function PassForward(x: Instr, depth: nat): (r: nat)
    requires x == Close ==> depth > 0
    ensures r as int == depth + Depth([x])
  {
    DepthOne(x);
    match x
    case Open => depth + 1
    case Close => depth - 1
    case _ => depth
  }

  /** The depth after the backward scan passes over `x` without stopping. */
  function PassBackward(x: Instr, depth: nat): (r: nat)
    requires x == Open ==> depth > 0
    ensures r as int == depth - Depth([x])
  {
    DepthOne(x);
    match x
    case Close => depth + 1
    case Open => depth - 1
    case _ => depth
  }

  // ---------------------------------------------------------------------
  // Forward scan (loop-open with a zero cell)
  // ---------------------------------------------------------------------

  /**
   * The forward scan from index `k` with nesting depth `depth`: an `Open`
   * deepens, a `Close` at depth 0 stops the scan on that index, any other
   * `Close` makes it shallower. Running off the end yields `|file|`.
   */
  function ScanForward(file: seq<Instr>, k: nat, depth: nat): (r: nat)
    requires k <= |file|
    ensures k <= r <= |file|
    ensures r < |file| ==> file[r] == Close
    decreases |file| - k
  {
    if k == |file| then |file|
    else match file[k]
      case Open => ScanForward(file, k + 1, depth + 1)
      case Close => if depth == 0 then k else ScanForward(file, k + 1, depth - 1)
      case _ => ScanForward(file, k + 1, depth)
  }

  /**
   * `j` is the `Close` matching a loop whose body starts at `from`: the first
   * `Close` at or after `from` with as many opens as closes between.
   */
  ghost predicate IsForwardMatch(file: seq<Instr>, from: nat, j: nat)
  {
    && from <= j < |file|
    && file[j] == Close
    && Depth(file[from..j]) == 0
    && forall i :: from <= i < j && file[i] == Close ==> Depth(file[from..i]) != 0
  }

  /** No `Close` at or after `from` balances the brackets opened after `from`. */
  ghost predicate NoForwardMatch(file: seq<Instr>, from: nat)
    requires from <= |file|
  {
    forall j :: from <= j < |file| && file[j] == Close ==> Depth(file[from..j]) != 0
  }

  /** One index passed by the forward scan keeps the scan's invariant. */
  lemma ForwardPass(file: seq<Instr>, from: nat, k: nat, depth: nat)
    requires from <= k < |file|
    requires !(file[k] == Close && depth == 0)
    requires depth as int == Depth(file[from..k])
    requires forall i :: from <= i < k && file[i] == Close ==> Depth(file[from..i]) > 0
    ensures var next := PassForward(file[k], depth);
      && next as int == Depth(file[from..k + 1])
      && (forall i :: from <= i < k + 1 && file[i] == Close ==> Depth(file[from..i]) > 0)
      && ScanForward(file, k, depth) == ScanForward(file, k + 1, next)
  {
    DepthSnoc(file, from, k);
  }

  lemma {:induction false} ScanForwardFrom(file: seq<Instr>, from: nat, k: nat, depth: nat)
    requires from <= k <= |file|
    requires depth as int == Depth(file[from..k])
    requires forall i :: from <= i < k && file[i] == Close ==> Depth(file[from..i]) > 0
    ensures var r := ScanForward(file, k, depth);
      || (r < |file| && IsForwardMatch(file, from, r))
      || (r == |file| && NoForwardMatch(file, from))
    decreases |file| - k
  {
    if k == |file| {
      assert NoForwardMatch(file, from);
    } else if file[k] == Close && depth == 0 {
      assert IsForwardMatch(file, from, k);
    } else {
      var next := PassForward(file[k], depth);
      ForwardPass(file, from, k, depth);
      ScanForwardFrom(file, from, k + 1, next);
    }
  }

  /**
   * The forward scan started at `from` with depth 0 stops exactly on the
   * matching `Close`, and runs to `|file|` exactly when there is none.
   */
  lemma ScanForwardCorrect(file: seq<Instr>, from: nat)
    requires from <= |file|
    ensures var r := ScanForward(file, from, 0);
      && (r < |file| <==> !NoForwardMatch(file, from))
      && (forall j :: IsForwardMatch(file, from, j) <==> r < |file| && j == r)
  {
    ScanForwardFrom(file, from, from, 0);
  }

  // ---------------------------------------------------------------------
  // Backward scan (loop-close with a non-zero cell)
  // ---------------------------------------------------------------------

  /**
   * The backward scan from index `k` down with nesting depth `depth`: a
   * `Close` deepens, an `Open` at depth 0 stops the scan on that index, any
   * other `Open` makes it shallower. Passing below index 0 yields `|file|`:
   * the machine halts (the `usize` counter of src/main.rs wraps there to a
   * value at least the program length).
   */
  function ScanBackward(file: seq<Instr>, k: int, depth: nat): (r: nat)
    requires k < |file|
    ensures r == |file| || (0 <= r <= k && file[r] == Open)
    decreases k
  {
    if k < 0 then |file|
    else match file[k]
      case Close => ScanBackward(file, k - 1, depth + 1)
      case Open => if depth == 0 then k else ScanBackward(file, k - 1, depth - 1)
      case _ => ScanBackward(file, k - 1, depth)
  }

  /**
   * `j` is the `Open` matching a loop whose body ends at index `to`: the
   * nearest `Open` at or before `to` with as many opens as closes in
   * `file(j..to]`.
   */
  ghost predicate IsBackwardMatch(file: seq<Instr>, to: int, j: nat)
    requires to < |file|
  {
    && j <= to
    && file[j] == Open
    && Depth(file[j + 1..to + 1]) == 0
    && forall i :: j < i <= to && file[i] == Open ==> Depth(file[i + 1..to + 1]) != 0
  }

  /** No `Open` at or before `to` balances the brackets closed before `to`. */
  ghost predicate NoBackwardMatch(file: seq<Instr>, to: int)
    requires to < |file|
  {
    forall j :: 0 <= j <= to && file[j] == Open ==> Depth(file[j + 1..to + 1]) != 0
  }

  /** One index passed by the backward scan keeps the scan's invariant. */
  lemma BackwardPass(file: seq<Instr>, to: int, k: nat, depth: nat)
    requires k <= to < |file|
    requires !(file[k] == Open && depth == 0)
    requires depth as int == -Depth(file[k + 1..to + 1])
    requires forall i :: k < i <= to && file[i] == Open ==> Depth(file[i + 1..to + 1]) < 0
    ensures var next := PassBackward(file[k], depth);
      && next as int == -Depth(file[k..to + 1])
      && (forall i :: k - 1 < i <= to && file[i] == Open ==> Depth(file[i + 1..to + 1]) < 0)
      && ScanBackward(file, k, depth) == ScanBackward(file, k - 1, next)
  {
    DepthCons(file, k, to + 1);
  }

  lemma {:induction false} ScanBackwardFrom(file: seq<Instr>, to: int, k: int, depth: nat)
    requires -1 <= k <= to < |file|
    requires depth as int == -Depth(file[k + 1..to + 1])
    requires forall i :: k < i <= to && file[i] == Open ==> Depth(file[i + 1..to + 1]) < 0
    ensures var r := ScanBackward(file, k, depth);
      || (r < |file| && IsBackwardMatch(file, to, r))
      || (r == |file| && NoBackwardMatch(file, to))
    decreases k + 1
  {
    if k < 0 {
      assert NoBackwardMatch(file, to);
    } else if file[k] == Open && depth == 0 {
      assert IsBackwardMatch(file, to, k);
    } else {
      var next := PassBackward(file[k], depth);
      BackwardPass(file, to, k, depth);
      ScanBackwardFrom(file, to, k - 1, next);
    }
  }

  /**
   * The backward scan started at `to` with depth 0 stops exactly on the
   * matching `Open`, and yields `|file|` (halt) exactly when there is none.
   */
  lemma ScanBackwardCorrect(file: seq<Instr>, to: int)
    requires -1 <= to < |file|
    ensures var r := ScanBackward(file, to, 0);
      && (r < |file| <==> !NoBackwardMatch(file, to))
      && (forall j :: IsBackwardMatch(file, to, j) <==> r < |file| && j == r)
  {
    ScanBackwardFrom(file, to, to, 0);
  }
}
