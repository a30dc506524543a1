/**
 * The reference-count pair elimination pass of the CPU target, as a
 * specification over the instruction list of one basic block.
 *
 * An instruction is abstracted to what the pass looks at: a call to
 * `Py_IncRef` or `Py_DecRef` with its one operand, or anything else.
 * An instruction's identity is its position in the block.
 */
module Refct {

  /** Identity of an LLVM value used as the operand of a refcount call. */
  type Value = int

  datatype Inst =
    | IncRef(arg: Value)   // call Py_IncRef(arg)
    | DecRef(arg: Value)   // call Py_DecRef(arg)
    | Other(code: int)     // any other instruction, including calls to other functions

  predicate IsRefct(x: Inst) {
    x.IncRef? || x.DecRef?
  }

  /** Number of occurrences of instruction `x` in the block. */
  function Count(s: seq<Inst>, x: Inst): nat {
    multiset(s)[x]
  }

  function Min(a: nat, b: nat): nat {
    if a <= b then a else b
  }

  /** Operand `v` has both an incref and a decref call in the block. */
  predicate Paired(s: seq<Inst>, v: Value) {
    IncRef(v) in s && DecRef(v) in s
  }

  /** Some operand is paired: a pass over the block erases something. */
  ghost predicate HasPair(s: seq<Inst>) {
    exists v :: Paired(s, v)
  }

  /** The instruction at `k` is the last one of its kind and operand. */
  predicate IsLast(s: seq<Inst>, k: int)
    requires 0 <= k < |s|
  {
    forall j :: k < j < |s| ==> s[j] != s[k]
  }

  /**
   * The instruction at `k` is erased by one pass: it is the last incref
   * (resp. decref) of an operand that also has a decref (resp. incref).
   */
  predicate Doomed(s: seq<Inst>, k: int)
    requires 0 <= k < |s|
  {
    IsRefct(s[k]) && Paired(s, s[k].arg) && IsLast(s, k)
  }

  /** Which positions survive one pass. */
  function Plan(s: seq<Inst>): (keep: seq<bool>)
    ensures |keep| == |s|
  {
    seq(|s|, k requires 0 <= k < |s| => !Doomed(s, k))
  }

  /** The instructions at the kept positions, in their original order. */
  function Sieve(s: seq<Inst>, keep: seq<bool>): seq<Inst>
    requires |keep| == |s|
  {
    if s == [] then []
    else if keep[0] then [s[0]] + Sieve(s[1..], keep[1..])
    else Sieve(s[1..], keep[1..])
  }

  /** The instructions at the positions not kept, in their original order. */
  function Dropped(s: seq<Inst>, keep: seq<bool>): seq<Inst>
    requires |keep| == |s|
  {
    if s == [] then []
    else if keep[0] then Dropped(s[1..], keep[1..])
    else [s[0]] + Dropped(s[1..], keep[1..])
  }

  /**
   * One iteration of the `while didsomething` loop: mark, then sweep.
   * Only refcount calls are erased; the rest keeps its order.
   */
  function OnePass(s: seq<Inst>): (r: seq<Inst>)
    ensures |r| <= |s|
    ensures IsSubseq(r, s)
    ensures Others(r) == Others(s)
  {
    var keep := Plan(s);
    SieveSplit(s, keep);
    SieveSubseq(s, keep);
    SieveOthers(s, keep);
    Sieve(s, keep)
  }

  /**
   * The whole pass: repeat until an iteration erases nothing. No operand
   * is left with both an incref and a decref; only refcount calls are
   * erased, and the survivors keep their order.
   */
  ghost function RemovePairs(s: seq<Inst>): (r: seq<Inst>)
    ensures forall v :: !Paired(r, v)
    ensures IsSubseq(r, s)
    ensures Others(r) == Others(s)
    decreases |s|
  {
    if !HasPair(s) then
      SubseqReflexive(s);
      s
    else
      OnePassShrinks(s);
      var r := RemovePairs(OnePass(s));
      SubseqTransitive(r, OnePass(s), s);
      r
  }

  /** The instructions that are not refcount calls, in order. */
  function Others(s: seq<Inst>): seq<Inst> {
    if s == [] then []
    else if IsRefct(s[0]) then Others(s[1..])
    else [s[0]] + Others(s[1..])
  }

  /** `a` is obtained from `b` by deleting some elements. */
  predicate IsSubseq(a: seq<Inst>, b: seq<Inst>)
    decreases |b|
  {
    if a == [] then true
    else if b == [] then false
    else (a[0] == b[0] && IsSubseq(a[1..], b[1..])) || IsSubseq(a, b[1..])
  }

  // ---------------------------------------------------------------------
  // Sieve and Dropped

  lemma {:induction false} SieveSplit(s: seq<Inst>, keep: seq<bool>)
    requires |keep| == |s|
    ensures multiset(s) == multiset(Sieve(s, keep)) + multiset(Dropped(s, keep))
    ensures |s| == |Sieve(s, keep)| + |Dropped(s, keep)|
  {
    if s != [] {
      SieveSplit(s[1..], keep[1..]);
      assert s == [s[0]] + s[1..];
    }
  }

  lemma {:induction false} SieveKeepAll(s: seq<Inst>, keep: seq<bool>)
    requires |keep| == |s|
    requires forall k :: 0 <= k < |s| ==> keep[k]
    ensures Sieve(s, keep) == s
  {
    if s != [] {
      SieveKeepAll(s[1..], keep[1..]);
    }
  }

  /** Exactly one dropped position holds `x`. */
  lemma {:induction false} DroppedOnce(s: seq<Inst>, keep: seq<bool>, x: Inst, k: int)
    requires |keep| == |s| && 0 <= k < |s| && s[k] == x && !keep[k]
    requires forall i :: 0 <= i < |s| && i != k && !keep[i] ==> s[i] != x
    ensures Count(Dropped(s, keep), x) == 1
  {
    if k == 0 {
      DroppedNever(s[1..], keep[1..], x);
    } else {
      DroppedOnce(s[1..], keep[1..], x, k - 1);
    }
  }

  /** No dropped position holds `x`. */
  lemma {:induction false} DroppedNever(s: seq<Inst>, keep: seq<bool>, x: Inst)
    requires |keep| == |s|
    requires forall i :: 0 <= i < |s| && !keep[i] ==> s[i] != x
    ensures Count(Dropped(s, keep), x) == 0
  {
    if s != [] {
      DroppedNever(s[1..], keep[1..], x);
    }
  }

  lemma {:induction false} SieveOthers(s: seq<Inst>, keep: seq<bool>)
    requires |keep| == |s|
    requires forall i :: 0 <= i < |s| && !keep[i] ==> IsRefct(s[i])
    ensures Others(Sieve(s, keep)) == Others(s)
  {
    if s != [] {
      SieveOthers(s[1..], keep[1..]);
      if keep[0] {
        assert ([s[0]] + Sieve(s[1..], keep[1..]))[1..] == Sieve(s[1..], keep[1..]);
      }
    }
  }

  lemma {:induction false} SieveSubseq(s: seq<Inst>, keep: seq<bool>)
    requires |keep| == |s|
    ensures IsSubseq(Sieve(s, keep), s)
  {
    if s != [] {
      SieveSubseq(s[1..], keep[1..]);
      if keep[0] {
        assert ([s[0]] + Sieve(s[1..], keep[1..]))[1..] == Sieve(s[1..], keep[1..]);
      }
    }
  }

  lemma {:induction false} SubseqTransitive(a: seq<Inst>, b: seq<Inst>, c: seq<Inst>)
    requires IsSubseq(a, b) && IsSubseq(b, c)
    ensures IsSubseq(a, c)
    decreases |c|
  {
    if a == [] || b == [] {
    } else if c == [] {
    } else if IsSubseq(b, c[1..]) {
      SubseqTransitive(a, b, c[1..]);
    } else if a[0] == b[0] && IsSubseq(a[1..], b[1..]) {
      SubseqTransitive(a[1..], b[1..], c[1..]);
    } else {
      SubseqTransitive(a, b[1..], c[1..]);
    }
  }

  lemma {:induction false} SubseqReflexive(a: seq<Inst>)
    ensures IsSubseq(a, a)
  {
    if a != [] {
      SubseqReflexive(a[1..]);
    }
  }

  // ---------------------------------------------------------------------
  // One pass

  /** Position of the last occurrence of `x`. */
  lemma {:induction false} LastOccurrence(s: seq<Inst>, x: Inst) returns (k: int)
    requires x in s
    ensures 0 <= k < |s| && s[k] == x && IsLast(s, k)
  {
    if s[|s| - 1] == x {
      k := |s| - 1;
    } else {
      var p := s[..|s| - 1];
      assert x in p by {
        var i :| 0 <= i < |s| && s[i] == x;
        assert p[i] == x;
      }
      k := LastOccurrence(p, x);
      assert p[k] == s[k];
      forall j | k < j < |s| ensures s[j] != s[k] {
        if j < |s| - 1 {
          assert p[j] == s[j];
        }
      }
    }
  }

  /** Two positions that both hold the last occurrence of the same instruction coincide. */
  lemma LastUnique(s: seq<Inst>, i: int, k: int)
    requires 0 <= i < |s| && 0 <= k < |s| && s[i] == s[k]
    requires IsLast(s, i) && IsLast(s, k)
    ensures i == k
  {
  }

  /**
   * One pass erases exactly one incref and one decref of every paired
   * operand, and nothing of any other operand.
   */
  lemma OnePassCount(s: seq<Inst>, x: Inst)
    requires IsRefct(x)
    ensures Count(OnePass(s), x) == Count(s, x) - (if Paired(s, x.arg) then 1 else 0)
  {
    var keep := Plan(s);
    SieveSplit(s, keep);
    if Paired(s, x.arg) {
      assert x in s;
      var k := LastOccurrence(s, x);
      assert Doomed(s, k);
      forall i | 0 <= i < |s| && i != k && !keep[i] ensures s[i] != x {
        if s[i] == x {
          assert Doomed(s, i);
          LastUnique(s, i, k);
        }
      }
      DroppedOnce(s, keep, x, k);
    } else {
      forall i | 0 <= i < |s| && !keep[i] ensures s[i] != x {
        assert Doomed(s, i);
      }
      DroppedNever(s, keep, x);
    }
  }

  /** A pass that erases something shrinks the block by at least two instructions. */
  lemma OnePassShrinks(s: seq<Inst>)
    requires HasPair(s)
    ensures |OnePass(s)| <= |s| - 2
  {
    var v :| Paired(s, v);
    var keep := Plan(s);
    SieveSplit(s, keep);
    OnePassCount(s, IncRef(v));
    OnePassCount(s, DecRef(v));
    var d := Dropped(s, keep);
    assert IncRef(v) in multiset(d) && DecRef(v) in multiset(d);
    assert IncRef(v) in d && DecRef(v) in d;
    var i :| 0 <= i < |d| && d[i] == IncRef(v);
    var j :| 0 <= j < |d| && d[j] == DecRef(v);
    assert i != j;
  }

  /** A pass over a block without a paired operand erases nothing. */
  lemma OnePassNoPair(s: seq<Inst>)
    requires !HasPair(s)
    ensures OnePass(s) == s
  {
    forall k | 0 <= k < |s| ensures Plan(s)[k] {
      if IsRefct(s[k]) {
        assert !Paired(s, s[k].arg);
      }
    }
    SieveKeepAll(s, Plan(s));
  }

  // ---------------------------------------------------------------------
  // The whole pass

  /**
   * Every operand loses exactly min(#incref, #decref) increfs and as many
   * decrefs.
   */
  lemma {:induction false} RemovePairsCount(s: seq<Inst>, x: Inst)
    requires IsRefct(x)
    ensures Count(RemovePairs(s), x)
         == Count(s, x) - Min(Count(s, IncRef(x.arg)), Count(s, DecRef(x.arg)))
    decreases |s|
  {
    var v := x.arg;
    if !HasPair(s) {
      assert !Paired(s, v);
    } else {
      OnePassShrinks(s);
      RemovePairsCount(OnePass(s), x);
      OnePassCount(s, x);
      OnePassCount(s, IncRef(v));
      OnePassCount(s, DecRef(v));
    }
  }

  /** Every operand keeps its balance #incref - #decref. */
  lemma RemovePairsBalance(s: seq<Inst>, v: Value)
    ensures Count(RemovePairs(s), IncRef(v)) - Count(RemovePairs(s), DecRef(v))
         == Count(s, IncRef(v)) - Count(s, DecRef(v))
  {
    RemovePairsCount(s, IncRef(v));
    RemovePairsCount(s, DecRef(v));
  }

  /** An operand with increfs only, or decrefs only, loses nothing. */
  lemma RemovePairsOneSided(s: seq<Inst>, v: Value)
    requires IncRef(v) !in s || DecRef(v) !in s
    ensures Count(RemovePairs(s), IncRef(v)) == Count(s, IncRef(v))
    ensures Count(RemovePairs(s), DecRef(v)) == Count(s, DecRef(v))
  {
    RemovePairsCount(s, IncRef(v));
    RemovePairsCount(s, DecRef(v));
  }

  /**
   * As many increfs as decrefs of an operand (for instance N increfs
   * followed by N decrefs) cancel completely.
   */
  lemma RemovePairsCancels(s: seq<Inst>, v: Value)
    requires Count(s, IncRef(v)) == Count(s, DecRef(v))
    ensures IncRef(v) !in RemovePairs(s) && DecRef(v) !in RemovePairs(s)
  {
    RemovePairsCount(s, IncRef(v));
    RemovePairsCount(s, DecRef(v));
    assert IncRef(v) !in multiset(RemovePairs(s));
    assert DecRef(v) !in multiset(RemovePairs(s));
  }

  /** Running the pass on its own output erases nothing. */
  lemma RemovePairsIdempotent(s: seq<Inst>)
    ensures OnePass(RemovePairs(s)) == RemovePairs(s)
    ensures RemovePairs(RemovePairs(s)) == RemovePairs(s)
  {
    OnePassNoPair(RemovePairs(s));
  }
}
