/**
 * The CPU target context: its registry of native-mode functions and the
 * choice of IR fixups applied after lowering.
 *
 * The callable objects and code addresses come from the JIT and the
 * `_dynfunc` C extension; here they are opaque handles passed in.
 */
module CPU {

  /** Handle of a callable object made for a compiled function. */
  type Callable = int

  /** Address of compiled machine code. */
  type Address = int

  /** What the registry needs of a function descriptor. */
  datatype FunctionDescriptor = FunctionDescriptor(llvmFuncName: string, native: bool)

  /** A registry entry: the LLVM symbol of the function and its code address. */
  datatype NativeEntry = NativeEntry(llvmFuncName: string, address: Address)

  type Registry = map<Callable, NativeEntry>

  /** `del` on an absent key raises KeyError. */
  datatype Error = KeyError(key: Callable)

  datatype Result<T> = Ok(value: T) | Err(error: Error)

  /** An IR rewrite applied to the module after lowering. */
  datatype Fixup =
    | FixPowi     // replace calls to the powi intrinsic
    | FixDivmod   // replace 64-bit division and remainder on a 32-bit machine

  // -----------------------------------------------------------------------
  // Registry

  /** The registry after `get_executable` made `cfunc` with code at `baseptr`. */
  function Register(reg: Registry, fndesc: FunctionDescriptor, cfunc: Callable, baseptr: Address)
    : (r: Registry)
    requires fndesc.native ==> cfunc !in reg
    ensures fndesc.native ==> r.Keys == reg.Keys + {cfunc}
    ensures fndesc.native ==> r[cfunc] == NativeEntry(fndesc.llvmFuncName, baseptr)
    ensures !fndesc.native ==> r == reg
    ensures forall f :: f in reg ==> f in r && r[f] == reg[f]
  {
    if fndesc.native then reg[cfunc := NativeEntry(fndesc.llvmFuncName, baseptr)] else reg
  }

  /** The registry after `remove_native_function(func)`, or the KeyError it raises. */
  function Unregister(reg: Registry, func: Callable): (r: Result<Registry>)
    ensures r.Err? <==> func !in reg
    ensures r.Err? ==> r.error == KeyError(func)
    ensures r.Ok? ==> r.value.Keys == reg.Keys - {func}
    ensures r.Ok? ==> forall f :: f in r.value ==> r.value[f] == reg[f]
  {
    if func in reg then Ok(reg - {func}) else Err(KeyError(func))
  }

  /** Removing a native function undoes its registration. */
  lemma UnregisterUndoesRegister(reg: Registry, fndesc: FunctionDescriptor, cfunc: Callable, baseptr: Address)
    requires fndesc.native && cfunc !in reg
    ensures Unregister(Register(reg, fndesc, cfunc, baseptr), cfunc) == Ok(reg)
  {
    var r := Register(reg, fndesc, cfunc, baseptr);
    assert r - {cfunc} == reg;
  }

  /** A function that is not native is never registered, so removing it fails. */
  lemma UnregisterNonNativeFails(reg: Registry, fndesc: FunctionDescriptor, cfunc: Callable, baseptr: Address)
    requires !fndesc.native && cfunc !in reg
    ensures Unregister(Register(reg, fndesc, cfunc, baseptr), cfunc) == Err(KeyError(cfunc))
  {
  }

  /** A second removal of the same function fails. */
  lemma UnregisterTwiceFails(reg: Registry, func: Callable)
    requires Unregister(reg, func).Ok?
    ensures Unregister(Unregister(reg, func).value, func) == Err(KeyError(func))
  {
  }

  // -----------------------------------------------------------------------
  // Post-lowering fixups

  /** `s` begins with `prefix`. */
  function StartsWith(s: string, prefix: string): (b: bool)
    ensures b <==> |prefix| <= |s| && s[..|prefix|] == prefix
  {
    if prefix == [] then true
    else if s == [] then false
    else s[0] == prefix[0] && StartsWith(s[1..], prefix[1..])
  }

  /**
   * The fixups `post_lowering` applies, in order: the powi fix on Linux
   * and Windows (`sys.platform` starting with "linux" or "win32"), then
   * the division fix on a 32-bit machine.
   */
  function FixupsFor(platform: string, is32bit: bool): (r: seq<Fixup>)
    ensures FixPowi in r <==> |platform| >= 5 && platform[..5] in {"linux", "win32"}
    ensures FixDivmod in r <==> is32bit
    ensures forall i, j :: 0 <= i < j < |r| ==> r[i] == FixPowi && r[j] == FixDivmod
  {
    (if StartsWith(platform, "linux") || StartsWith(platform, "win32") then [FixPowi] else [])
    + (if is32bit then [FixDivmod] else [])
  }

  /** The powi decision does not depend on the word size, the division fix not on the platform. */
  lemma FixupsIndependent(p1: string, p2: string, b1: bool, b2: bool)
    ensures (FixPowi in FixupsFor(p1, b1)) == (FixPowi in FixupsFor(p1, b2))
    ensures (FixDivmod in FixupsFor(p1, b1)) == (FixDivmod in FixupsFor(p2, b1))
  {
  }

  // -----------------------------------------------------------------------
  // The context

  class CPUContext {
    /** Native-mode functions compiled by this context. */
    var nativeFuncs: Registry
    var is32bit: bool

    /** `init`: an empty registry; `machineBits` is the word size of the host. */
    constructor Init(machineBits: int)
      ensures nativeFuncs == map[]
      ensures is32bit <==> machineBits == 32
    {
      nativeFuncs := map[];
      is32bit := machineBits == 32;
    }

    /**
     * `get_executable`: `cfunc` is the callable made by `_dynfunc` and
     * `baseptr` the address of the compiled function; both are fresh.
     */
    method GetExecutable(fndesc: FunctionDescriptor, cfunc: Callable, baseptr: Address)
      returns (r: Callable)
      requires fndesc.native ==> cfunc !in nativeFuncs
      modifies this`nativeFuncs
      ensures r == cfunc
      ensures nativeFuncs == Register(old(nativeFuncs), fndesc, cfunc, baseptr)
    {
      if fndesc.native {
        nativeFuncs := nativeFuncs[cfunc := NativeEntry(fndesc.llvmFuncName, baseptr)];
      }
      r := cfunc;
    }

    /** `remove_native_function`: delete the entry of `func`, KeyError if there is none. */
    method RemoveNativeFunction(func: Callable) returns (r: Result<()>)
      modifies this`nativeFuncs
      ensures Unregister(old(nativeFuncs), func).Ok? ==>
        r == Ok(()) && nativeFuncs == Unregister(old(nativeFuncs), func).value
      ensures Unregister(old(nativeFuncs), func).Err? ==>
        r == Err(KeyError(func)) && nativeFuncs == old(nativeFuncs)
    {
      if func in nativeFuncs {
        nativeFuncs := nativeFuncs - {func};
        r := Ok(());
      } else {
        r := Err(KeyError(func));
      }
    }

    /** `post_lowering`: the fixups applied to the function's module on `platform`. */
    method PostLowering(platform: string) returns (applied: seq<Fixup>)
      ensures applied == FixupsFor(platform, is32bit)
    {
      applied := FixupsFor(platform, is32bit);
    }
  }
}
