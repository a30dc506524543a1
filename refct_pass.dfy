/**
 * The reference-count pass as the CPU target runs it: in place on the
 * instruction list of each basic block of a function.
 */
module RefctPass {
  import opened Refct

  /** A basic block whose instruction list the pass edits in place. */
  class BasicBlock {
    var instructions: seq<Inst>

    constructor (insts: seq<Inst>)
      ensures instructions == insts
    {
      instructions := insts;
    }
  }

  /** A compiled function: its basic blocks, distinct objects. */
  class IRFunction {
    const basicBlocks: seq<BasicBlock>

    constructor (blocks: seq<BasicBlock>)
      requires forall i, j :: 0 <= i < j < |blocks| ==> blocks[i] != blocks[j]
      ensures basicBlocks == blocks && Valid()
    {
      basicBlocks := blocks;
    }

    ghost predicate Valid()
    {
      forall i, j :: 0 <= i < j < |basicBlocks| ==> basicBlocks[i] != basicBlocks[j]
    }
  }

  /**
   * `increfs` and `decrefs` map every operand that has an incref (resp.
   * decref) call in `s` to the position of its last such call.
   */
  ghost predicate Marked(s: seq<Inst>, increfs: map<Value, int>, decrefs: map<Value, int>)
  {
    && (forall v :: v in increfs <==> IncRef(v) in s)
    && (forall v :: v in decrefs <==> DecRef(v) in s)
    && (forall v :: v in increfs ==>
          0 <= increfs[v] < |s| && s[increfs[v]] == IncRef(v) && IsLast(s, increfs[v]))
    && (forall v :: v in decrefs ==>
          0 <= decrefs[v] < |s| && s[decrefs[v]] == DecRef(v) && IsLast(s, decrefs[v]))
  }

  /**
   * The mark loop: one scan of the block in order; a later call on the
   * same operand overwrites the entry of an earlier one.
   */
  method Mark(s: seq<Inst>) returns (increfs: map<Value, int>, decrefs: map<Value, int>)
    ensures Marked(s, increfs, decrefs)
  {
    increfs, decrefs := map[], map[];
    for i := 0 to |s|
      invariant forall j :: 0 <= j < i && s[j].IncRef? ==> s[j].arg in increfs
      invariant forall j :: 0 <= j < i && s[j].DecRef? ==> s[j].arg in decrefs
      invariant forall v :: v in increfs ==>
        0 <= increfs[v] < i && s[increfs[v]] == IncRef(v)
        && forall j :: increfs[v] < j < i ==> s[j] != IncRef(v)
      invariant forall v :: v in decrefs ==>
        0 <= decrefs[v] < i && s[decrefs[v]] == DecRef(v)
        && forall j :: decrefs[v] < j < i ==> s[j] != DecRef(v)
    {
      match s[i]
      case IncRef(arg) =>
        increfs := increfs[arg := i];
      case DecRef(arg) =>
        decrefs := decrefs[arg := i];
      case Other(_) =>
    }
  }

  /**
   * The sweep loop: for every operand with both an incref and a decref
   * recorded, the two recorded calls are doomed. Returns the doomed
   * positions and whether there were any.
   */
  method Sweep(s: seq<Inst>, increfs: map<Value, int>, decrefs: map<Value, int>)
    returns (doomed: set<int>, didsomething: bool)
    requires Marked(s, increfs, decrefs)
    ensures forall k :: k in doomed <==> 0 <= k < |s| && Doomed(s, k)
    ensures didsomething <==> HasPair(s)
  {
    doomed, didsomething := {}, false;
    var todo := increfs.Keys;
    while todo != {}
      invariant todo <= increfs.Keys
      invariant forall k :: k in doomed <==>
        0 <= k < |s| && Doomed(s, k) && s[k].arg !in todo
      invariant didsomething <==> exists v :: v in increfs && v !in todo && Paired(s, v)
      decreases todo
    {
      NonEmpty(todo);
      var val :| val in todo;
      if val in decrefs {
        doomed := doomed + {increfs[val], decrefs[val]};
        didsomething := true;
        forall k | 0 <= k < |s| && Doomed(s, k) && s[k].arg == val
          ensures k == increfs[val] || k == decrefs[val]
        {
          if s[k].IncRef? {
            LastUnique(s, k, increfs[val]);
          } else {
            LastUnique(s, k, decrefs[val]);
          }
        }
      } else {
        assert !Paired(s, val);
      }
      todo := todo - {val};
    }
    if HasPair(s) {
      var v :| Paired(s, v);
      assert v in increfs;
    }
  }

  lemma NonEmpty(t: set<Value>)
    requires t != {}
    ensures exists v :: v in t
  {
    if forall v :: v !in t {
      assert false;
    }
  }

  /**
   * Remove incref/decref pairs on the same operand until a pass erases
   * nothing.
   */
  method RemoveRefctPairs(bb: BasicBlock)
    modifies bb
    ensures bb.instructions == RemovePairs(old(bb.instructions))
  {
    var didsomething := true;
    while didsomething
      invariant RemovePairs(bb.instructions) == RemovePairs(old(bb.instructions))
      invariant !didsomething ==> !HasPair(bb.instructions)
      decreases |bb.instructions| + (if didsomething then 1 else 0)
    {
      var s := bb.instructions;
      var increfs, decrefs := Mark(s);
      var doomed;
      doomed, didsomething := Sweep(s, increfs, decrefs);
      var keep := seq(|s|, k requires 0 <= k < |s| => k !in doomed);
      assert keep == Plan(s);
      bb.instructions := Sieve(s, keep);
      if didsomething {
        OnePassShrinks(s);
      } else {
        OnePassNoPair(s);
      }
    }
  }

  /** Eliding refcount calls on a null operand is not done: the block is left as it is. */
  method RemoveNullRefctCall(bb: BasicBlock)
    ensures bb.instructions == old(bb.instructions)
  {
  }

  /** Apply the pass to every basic block of `func`, each on its own. */
  method RemoveRefctCalls(func: IRFunction)
    requires func.Valid()
    modifies set b | b in func.basicBlocks
    ensures forall i :: 0 <= i < |func.basicBlocks| ==>
      func.basicBlocks[i].instructions == RemovePairs(old(func.basicBlocks[i].instructions))
  {
    var blocks := func.basicBlocks;
    for n := 0 to |blocks|
      invariant forall i :: 0 <= i < n ==>
        blocks[i].instructions == RemovePairs(old(blocks[i].instructions))
      invariant forall i :: n <= i < |blocks| ==>
        blocks[i].instructions == old(blocks[i].instructions)
    {
      RemoveNullRefctCall(blocks[n]);
      RemoveRefctPairs(blocks[n]);
    }
  }
}
