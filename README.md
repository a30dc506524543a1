# numba CPU target context — a Dafny model

This project models the core of `numba/targets/cpu.py`, the CPU backend of
numba's JIT compiler:

- the **reference-count pair elimination pass** (`remove_refct_pairs`,
  driven by `remove_refct_calls` over the basic blocks of a function), which
  removes matching `Py_IncRef` / `Py_DecRef` calls on the same operand from a
  basic block until a pass erases nothing;
- the **native-function registry** `native_funcs` of `CPUContext`, filled by
  `get_executable` for native-mode functions and emptied by
  `remove_native_function`;
- the **fixup selection of `post_lowering`**: the powi fix on Linux and
  Windows, the 64-bit division fix on 32-bit machines.

Files:

- `refct.dfy` (module `Refct`): instructions abstracted to
  `IncRef(v)` / `DecRef(v)` / `Other`, one pass of the elimination loop as
  the function `OnePass`, the whole pass as its fixed point `RemovePairs`, and
  the lemmas about them.
- `refct_pass.dfy` (module `RefctPass`): the pass as the source runs it, in
  place on a `BasicBlock` object: the mark loop (`Mark`), the sweep loop
  (`Sweep`), the `while didsomething` loop (`RemoveRefctPairs`), the no-op
  `RemoveNullRefctCall` and the per-block driver `RemoveRefctCalls`. Each
  method is proved against the functions of `Refct`.
- `cpu_context.dfy` (module `CPU`): the registry as pure functions
  (`Register`, `Unregister`) and as the `CPUContext` class that updates its
  `nativeFuncs` field, and the fixup decision `FixupsFor`.

An instruction's identity is its position in the block. The mark loop
records, per operand, the position of the last incref and of the last
decref (a later call overwrites an earlier one). The sweep loop collects the
two recorded positions of every operand recorded in both maps. The block is
then cut down to the positions not collected. Erasing the collected
instructions one by one, as `erase_from_parent` does, leaves the same block
in any order, so the model erases them together once the sweep loop is done.

`get_executable` returns only `cfunc`, although its docstring
(numba/targets/cpu.py:123-134) announces `(cfunc, fnptr)`; the model follows
the code.

## Model

| member | source | states |
|---|---|---|
| `RefctPass.Mark` | numba/targets/cpu.py:211-223 | every operand with an incref (decref) call in the block is a key of `increfs` (`decrefs`) and nothing else is; its value is the position of an incref (decref) of that operand after which no other follows: the last one |
| `RefctPass.Sweep` | numba/targets/cpu.py:225-230 | the positions collected are exactly those holding the last incref or the last decref of an operand that has both; `didsomething` is true iff some operand has both |
| `RefctPass.RemoveRefctPairs` | numba/targets/cpu.py:201-230 | the loop terminates and leaves the block equal to `RemovePairs` of its old instructions |
| `RefctPass.RemoveNullRefctCall` | numba/targets/cpu.py:185-189 | the block is left unchanged |
| `RefctPass.RemoveRefctCalls` | numba/targets/cpu.py:176-182 | every basic block of the function ends as `RemovePairs` of its own old instructions, independently of the other blocks |
| `Refct.OnePass` | numba/targets/cpu.py:209-230 | one iteration of the loop keeps every position that is not doomed (the last incref and the last decref of an operand that has both); it erases only refcount calls, never lengthens the block, and the survivors are a subsequence in their original order |
| `Refct.RemovePairs` | numba/targets/cpu.py:201-230 | `remove_refct_pairs` as a whole: `OnePass` repeated until no operand has both an incref and a decref; in the result no operand has both, every non-refcount instruction is kept in order, and the result is a subsequence of the block |
| `Refct.OnePassCount` | numba/targets/cpu.py:226-229 | one pass removes exactly one incref and one decref of every operand that has both, and no refcount call of any other operand |
| `Refct.OnePassShrinks` | numba/targets/cpu.py:206-230 | a pass that sets `didsomething` shrinks the block by at least two instructions (the loop terminates) |
| `Refct.OnePassNoPair` | numba/targets/cpu.py:208-230 | on a block where no operand has both an incref and a decref, a pass erases nothing |
| `Refct.RemovePairsCount` | numba/targets/cpu.py:206-230 | every operand loses exactly min(#incref, #decref) incref calls and as many decref calls |
| `Refct.RemovePairsBalance` | numba/targets/cpu.py:226-229 | every operand keeps its value of #incref − #decref |
| `Refct.RemovePairsOneSided` | numba/targets/cpu.py:226-229 | an operand with only increfs, or only decrefs, loses none of them |
| `Refct.RemovePairsCancels` | numba/targets/cpu.py:206-230 | an operand with as many increfs as decrefs (for instance N increfs followed by N decrefs) has none of either left |
| `Refct.RemovePairsIdempotent` | numba/targets/cpu.py:206-230 | a pass over the result erases nothing, and running the whole pass again returns the result unchanged |
| `CPU.CPUContext.Init` | numba/targets/cpu.py:41-43 | the registry starts empty; `is32bit` holds iff the machine word is 32 bits |
| `CPU.CPUContext.GetExecutable` | numba/targets/cpu.py:122-149 | returns `cfunc`; the registry gains the entry `cfunc -> (llvm_func_name, baseptr)` if the descriptor is native and is unchanged otherwise |
| `CPU.CPUContext.RemoveNativeFunction` | numba/targets/cpu.py:92-97 | a registered function's entry is deleted; an unknown one raises KeyError and leaves the registry unchanged |
| `CPU.CPUContext.PostLowering` | numba/targets/cpu.py:99-109 | the fixups applied are those `FixupsFor` selects for the platform and the context's word size |
| `CPU.Register` | numba/targets/cpu.py:146-147 | a native descriptor adds exactly the key `cfunc`, mapped to its symbol name and address, and keeps every other entry; a non-native one leaves the registry as it was |
| `CPU.Unregister` | numba/targets/cpu.py:92-97 | fails with KeyError(func) iff `func` is not a key; otherwise removes exactly that key and keeps every other entry |
| `CPU.UnregisterUndoesRegister` | numba/targets/cpu.py:92-97 | removing a just-registered native function restores the registry |
| `CPU.UnregisterNonNativeFails` | numba/targets/cpu.py:146-147 | a non-native function is not registered, so removing it raises KeyError |
| `CPU.UnregisterTwiceFails` | numba/targets/cpu.py:97 | after a successful removal, removing the same function again raises KeyError |
| `CPU.StartsWith` | numba/targets/cpu.py:102-103 | `str.startswith`: true iff the prefix is no longer than the string and equals its first characters |
| `CPU.FixupsFor` | numba/targets/cpu.py:99-109 | the powi fix is selected iff the platform begins with "linux" or "win32", the division fix iff the machine is 32-bit, and the powi fix comes first |
| `CPU.FixupsIndependent` | numba/targets/cpu.py:99-109 | the powi decision does not depend on the word size and the division decision does not depend on the platform |

## Left out

- LLVM IR construction and code generation (`create_module`, `target_data`,
  `aot_codegen`, `jit_codegen`, `create_cpython_wrapper`): they delegate to
  llvmlite and to `PyCallWrapper`, which are not part of this model.
- `ClosureBody`, `EnvBody`, `get_env_from_closure`, `get_env_body`: they
  read fields at byte offsets supplied by the `_dynfunc` C extension, whose
  memory layout is not part of this model.
- `get_executable`'s lookup of the function and wrapper symbols, the address
  resolution and `_dynfunc.make_function`: foreign calls. Their results, the
  callable `cfunc` and the address `baseptr`, are parameters of
  `GetExecutable`.
- CPU.CPUContext.GetExecutable: requires that a native `cfunc` is not yet a
  key of the registry. `make_function` returns a new object each time, and
  the behaviour of `utils.UniqueDict` on a duplicate key is not part of this
  model.
- The bodies of `intrinsics.fix_powi_calls` and `intrinsics.fix_divmod`: not
  part of this model; `PostLowering` returns which of them it applies, in
  order, instead of rewriting a module.
- `sys.platform` and `utils.MACHINE_BITS`: read from the environment by the
  source; parameters here (`platform`, `machineBits`).
- The installation of external C functions and implementation registries in
  `init`, and the construction of the JIT code generator: side effects on
  other modules.
- `calc_array_sizeof`: depends on the base context's layout engine.
- `call_conv`: a cached property over `callconv.CPUCallConv`.
- `CPUTargetOptions`: a static table of six flag names with no logic.
- Instructions are abstracted to a `Py_IncRef` call, a `Py_DecRef` call or
  anything else; an operand is an opaque value identity. The call
  classification through `CallOrInvokeInstruction` and
  `called_function.name` is this abstraction.
- RefctPass.RemoveRefctPairs: erases the collected instructions together at
  the end of each sweep instead of one `erase_from_parent` at a time; the
  resulting block is the same.
