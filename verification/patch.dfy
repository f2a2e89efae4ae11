/**
 * The patch pass of the emulator's class transformation. A method the scan
 * registered is re-declared without its `native` flag and given a proxy
 * body: push the module and function names, pack the arguments into an
 * `Object[]`, call `JavaFxApplication.executeScript`, and return the result
 * with the return instruction of the method's return sort. Every other
 * method is passed on unchanged. The patch reads the registry and never
 * writes it.
 */
module Patch {
  import opened JavaTypes
  import opened ClassFile
  import opened ImportScan
  import opened ScriptHost

  /** The internal name of the class holding `executeScript`. */
  const RUNNER_CLASS: string := "de/inetsoftware/jwebassembly/emulator/JWebAssemblyEmulator$JavaFxApplication"
  const RUNNER_FUNC: string := "executeScript"
  /** `Object executeScript(String, String, Object[])`. */
  const RUNNER_DESC: string := "(Ljava/lang/String;Ljava/lang/String;[Ljava/lang/Object;)Ljava/lang/Object;"
  const OBJECT_CLASS: string := "java/lang/Object"

  /** The call of the script bridge. */
  const INVOKE_RUNNER: Insn := MethodOp(INVOKESTATIC, RUNNER_CLASS, RUNNER_FUNC, RUNNER_DESC, false)

  /** The return of the proxy, chosen by the method's return sort. `boolean` falls to the default case. */
  function ReturnInsns(result: Sort): seq<Insn>
  {
    match result
    case Void => [Op(POP), Op(RETURN)]
    case Int | Short | Byte | Char => [Op(IRETURN)]
    case Long => [Op(LRETURN)]
    case Float => [Op(FRETURN)]
    case Double => [Op(DRETURN)]
    case _ => [Op(ARETURN)]
  }

  /** Storing argument `i` into the array on the stack: every argument is loaded with ALOAD from slot `i`. */
  function ArgumentInsns(i: int): seq<Insn>
  {
    [Op(DUP), IntOp(BIPUSH, i), VarOp(ALOAD, i), Op(AASTORE)]
  }

  /** The stores of the first `n` arguments, in order. */
  function ArgumentBlock(n: nat): seq<Insn>
  {
    if n == 0 then [] else ArgumentBlock(n - 1) + ArgumentInsns(n - 1)
  }

  /** The events the proxy body sends to the method writer, ending with the stack sizes and the end of the method. */
  function ProxyCode(anno: Anno, arguments: seq<Sort>, result: Sort): seq<Insn>
  {
    ProxyHead(anno, |arguments|) + ArgumentBlock(|arguments|) + ProxyTail(result)
  }

  /**
   * A void method pops the result and returns; `int`, `short`, `byte` and
   * `char` return with IRETURN, `long`, `float` and `double` with their own
   * instruction, and every other sort, `boolean` included, with ARETURN.
   */
  lemma ReturnSelection(result: Sort)
    ensures |ReturnInsns(result)| == if result == Void then 2 else 1
    ensures ReturnInsns(result)[|ReturnInsns(result)| - 1] ==
      Op(match result
         case Void => RETURN
         case Int | Short | Byte | Char => IRETURN
         case Long => LRETURN
         case Float => FRETURN
         case Double => DRETURN
         case Boolean | Array | Object | Method => ARETURN)
    ensures result == Void ==> ReturnInsns(result)[0] == Op(POP)
    ensures result == Boolean ==> ReturnInsns(result) == [Op(ARETURN)]
  {
  }

  /** The block for `n` arguments has four instructions per argument, those of argument `i` at offset `4 * i`. */
  lemma {:induction false} ArgumentBlockShape(n: nat)
    ensures |ArgumentBlock(n)| == 4 * n
    ensures forall i :: 0 <= i < n ==> ArgumentBlock(n)[4 * i..4 * i + 4] == ArgumentInsns(i)
  {
    if n > 0 {
      ArgumentBlockShape(n - 1);
      var prev := ArgumentBlock(n - 1);
      assert ArgumentBlock(n) == prev + ArgumentInsns(n - 1);
      forall i | 0 <= i < n
        ensures ArgumentBlock(n)[4 * i..4 * i + 4] == ArgumentInsns(i)
      {
        if i < n - 1 {
          assert ArgumentBlock(n)[4 * i..4 * i + 4] == prev[4 * i..4 * i + 4];
        } else {
          assert ArgumentBlock(n)[4 * i..4 * i + 4] == ArgumentInsns(n - 1);
        }
      }
    }
  }

  /** Every load in the argument block is an ALOAD, and the slots loaded are 0 to `n - 1` in order. */
  lemma {:induction false} ArgumentLoads(n: nat)
    ensures forall k :: 0 <= k < |ArgumentBlock(n)| && ArgumentBlock(n)[k].VarOp? ==>
      ArgumentBlock(n)[k] == VarOp(ALOAD, k / 4) && k % 4 == 2
  {
    if n > 0 {
      ArgumentLoads(n - 1);
      ArgumentBlockShape(n - 1);
      var prev := ArgumentBlock(n - 1);
      forall k | 0 <= k < |ArgumentBlock(n)| && ArgumentBlock(n)[k].VarOp?
        ensures ArgumentBlock(n)[k] == VarOp(ALOAD, k / 4) && k % 4 == 2
      {
        if k >= |prev| {
          assert ArgumentBlock(n)[k] == ArgumentInsns(n - 1)[k - 4 * (n - 1)];
        } else {
          assert ArgumentBlock(n)[k] == prev[k];
        }
      }
    }
  }

  /** The parts of the proxy after the argument block: the call, the return, and the end of the method. */
  function ProxyTail(result: Sort): seq<Insn>
  {
    [INVOKE_RUNNER] + ReturnInsns(result) + [Maxs(0, 0), End]
  }

  function ProxyHead(anno: Anno, n: int): seq<Insn>
  {
    [Ldc(anno.moduleName), Ldc(anno.name), IntOp(BIPUSH, n), TypeOp(ANEWARRAY, OBJECT_CLASS)]
  }

  /**
   * The proxy pushes module and name, allocates an `Object[]` of the
   * argument count, stores the arguments, calls the bridge, and returns:
   * 4n+6 instructions for n arguments (4n+7 for a void method), followed by
   * `visitMaxs(0, 0)` and the end of the method.
   */
  lemma ProxyCodeShape(anno: Anno, arguments: seq<Sort>, result: Sort)
    ensures var code := ProxyCode(anno, arguments, result); var n := |arguments|;
      |code| == 4 * n + (if result == Void then 7 else 6) + 2
      && code[..4] == [Ldc(anno.moduleName), Ldc(anno.name), IntOp(BIPUSH, n), TypeOp(ANEWARRAY, OBJECT_CLASS)]
      && code[4 + 4 * n] == INVOKE_RUNNER
      && code[5 + 4 * n..|code| - 2] == ReturnInsns(result)
      && code[|code| - 2..] == [Maxs(0, 0), End]
  {
    var n := |arguments|;
    ArgumentBlockShape(n);
    ReturnSelection(result);
    var code := ProxyCode(anno, arguments, result);
    var prefix := ProxyHead(anno, n) + ArgumentBlock(n);
    assert code == prefix + ProxyTail(result);
    assert |prefix| == 4 + 4 * n;
    assert code[..4] == prefix[..4];
    assert code[4 + 4 * n..] == ProxyTail(result);
  }

  /** The stores of argument `i` sit at offset `4 + 4 * i` of the proxy, for every argument. */
  lemma ProxyArguments(anno: Anno, arguments: seq<Sort>, result: Sort)
    ensures var code := ProxyCode(anno, arguments, result);
      |code| > 4 + 4 * |arguments|
      && forall i :: 0 <= i < |arguments| ==> code[4 + 4 * i..8 + 4 * i] == ArgumentInsns(i)
  {
    var n := |arguments|;
    ArgumentBlockShape(n);
    var code := ProxyCode(anno, arguments, result);
    var block := ArgumentBlock(n);
    assert code == ProxyHead(anno, n) + (block + ProxyTail(result));
    forall i | 0 <= i < n
      ensures code[4 + 4 * i..8 + 4 * i] == ArgumentInsns(i)
    {
      assert code[4 + 4 * i..8 + 4 * i] == block[4 * i..4 * i + 4];
    }
  }

  /** The proxy calls the bridge exactly once: no other instruction of it is a method call. */
  lemma {:induction false} ProxyCallsOnce(anno: Anno, arguments: seq<Sort>, result: Sort)
    ensures var code := ProxyCode(anno, arguments, result);
      forall k :: 0 <= k < |code| && code[k].MethodOp? ==> k == 4 + 4 * |arguments|
  {
    var n := |arguments|;
    ArgumentBlockShape(n);
    ArgumentCallsNothing(n);
    var code := ProxyCode(anno, arguments, result);
    var head := ProxyHead(anno, n);
    var rest := ReturnInsns(result) + [Maxs(0, 0), End];
    assert code == (head + ArgumentBlock(n)) + ([INVOKE_RUNNER] + rest);
    forall k | 0 <= k < |code| && k != 4 + 4 * n
      ensures !code[k].MethodOp?
    {
      if k < 4 {
        assert code[k] == head[k];
      } else if k < 4 + 4 * n {
        assert code[k] == ArgumentBlock(n)[k - 4];
      } else {
        assert code[k] == rest[k - 5 - 4 * n];
      }
    }
  }

  lemma {:induction false} ArgumentCallsNothing(n: nat)
    ensures forall k :: 0 <= k < |ArgumentBlock(n)| ==> !ArgumentBlock(n)[k].MethodOp?
  {
    if n > 0 {
      ArgumentCallsNothing(n - 1);
      var prev := ArgumentBlock(n - 1);
      forall k | 0 <= k < |ArgumentBlock(n)|
        ensures !ArgumentBlock(n)[k].MethodOp?
      {
        if k >= |prev| {
          assert ArgumentBlock(n)[k] == ArgumentInsns(n - 1)[k - |prev|];
        } else {
          assert ArgumentBlock(n)[k] == prev[k];
        }
      }
    }
  }

  /** The method writer of the class writer, as the list of events it has received. */
  class MethodWriter {
    var code: seq<Insn>

    constructor ()
      ensures code == []
    {
      code := [];
    }

    method Emit(insn: Insn)
      modifies this
      ensures code == old(code) + [insn]
    {
      code := code + [insn];
    }
  }

  /**
   * `visitEnd` of the proxy emitter: register the script with the host
   * first (a throwable from the host propagates and nothing is emitted),
   * then emit the proxy body.
   */
  method VisitEnd(anno: Anno, arguments: seq<Sort>, result: Sort, mv: MethodWriter, host: JavaFxApplication, platform: Platform)
    returns (r: Outcome<Throwable>)
    modifies mv, host
    ensures r.Pass? <==> old(host.wasmImports).Some? || LoadsPage(old(host.started), platform)
    ensures r.Pass? ==> mv.code == old(mv.code) + ProxyCode(anno, arguments, result)
    ensures r.Pass? ==> (host.annotations == old(host.annotations) + {anno} && host.wasmImports.Some?
      && Lookup(host.wasmImports.value, anno.moduleName, anno.name) == Some(ScriptText(anno)))
    ensures r.Fail? ==> mv.code == old(mv.code) && r.error == RegisterError(old(host.started), platform)
    ensures RegisterEffect(old(host.State()), anno, platform, r, host.State())
  {
    r := host.RegisterScript(anno, platform);
    if r.Pass? {
      EmitProxy(anno, arguments, result, mv);
    }
  }

  /** The instructions of the proxy body, one by one. */
  method EmitProxy(anno: Anno, arguments: seq<Sort>, result: Sort, mv: MethodWriter)
    modifies mv
    ensures mv.code == old(mv.code) + ProxyCode(anno, arguments, result)
  {
    mv.Emit(Ldc(anno.moduleName));
    mv.Emit(Ldc(anno.name));
    mv.Emit(IntOp(BIPUSH, |arguments|));
    mv.Emit(TypeOp(ANEWARRAY, OBJECT_CLASS));
    assert mv.code == old(mv.code) + ProxyHead(anno, |arguments|);
    EmitArguments(arguments, mv);
    EmitTail(result, mv);
    assert mv.code == old(mv.code) + ProxyHead(anno, |arguments|) + ArgumentBlock(|arguments|) + ProxyTail(result);
  }

  /** The call of the bridge, the return, the stack sizes and the end of the method. */
  method EmitTail(result: Sort, mv: MethodWriter)
    modifies mv
    ensures mv.code == old(mv.code) + ProxyTail(result)
  {
    mv.Emit(INVOKE_RUNNER);
    var exit := ReturnInsns(result);
    mv.Emit(exit[0]);
    if |exit| == 2 {
      mv.Emit(exit[1]);
    }
    mv.Emit(Maxs(0, 0));
    mv.Emit(End);
  }

  /** The loop over the arguments: each is stored into the array with an ALOAD from its slot, whatever its sort. */
  method EmitArguments(arguments: seq<Sort>, mv: MethodWriter)
    modifies mv
    ensures mv.code == old(mv.code) + ArgumentBlock(|arguments|)
  {
    for i := 0 to |arguments|
      invariant mv.code == old(mv.code) + ArgumentBlock(i)
    {
      mv.Emit(Op(DUP));
      mv.Emit(IntOp(BIPUSH, i));
      var opcode := match arguments[i] case _ => ALOAD;
      mv.Emit(VarOp(opcode, i));
      mv.Emit(Op(AASTORE));
    }
  }

  /** A method as the patch pass declares it: its header and either its original body or a proxy for an import. */
  datatype Declaration = Declaration(header: MethodHeader, proxy: Option<Anno>)

  /**
   * The class visitor's `visitMethod`: a method registered under
   * `name + descriptor` is re-declared with the `native` flag cleared and a
   * proxy for its entry; any other method is declared as it is.
   */
  function PatchDeclaration(reg: map<string, Anno>, m: MethodHeader): Declaration
  {
    var key := Key(m.name, m.descriptor);
    if key in reg then Declaration(m.(access := ClearNative(m.access)), Some(reg[key]))
    else Declaration(m, None)
  }

  /**
   * The declaration keeps name, descriptor, signature, exceptions and
   * annotations; a registered method loses the `native` flag and keeps every
   * other flag, and gets a proxy for its entry; an unregistered method is
   * unchanged.
   */
  lemma PatchDeclarationKeeps(reg: map<string, Anno>, m: MethodHeader)
    ensures var d := PatchDeclaration(reg, m);
      d.header.name == m.name && d.header.descriptor == m.descriptor && d.header.signature == m.signature
      && d.header.exceptions == m.exceptions && d.header.annotations == m.annotations
      && d.header.arguments == m.arguments && d.header.result == m.result
      && (d.proxy.Some? <==> Key(m.name, m.descriptor) in reg)
      && (d.proxy.Some? ==> (d.proxy.value == reg[Key(m.name, m.descriptor)]
          && !IsNative(d.header.access) && d.header.access & !ACC_NATIVE == m.access & !ACC_NATIVE))
      && (d.proxy.None? ==> d.header == m)
  {
  }

  /** A method of the patched class: its declaration and the body the class writer receives. */
  datatype PatchedMethod = PatchedMethod(header: MethodHeader, body: Body)

  /** The original body is copied through; a proxy body is the code the emitter sent. */
  datatype Body = Original | Proxy(code: seq<Insn>)

  /** The patched form of one method, given that registering its script succeeds. */
  function PatchedMethodOf(reg: map<string, Anno>, m: MethodHeader): PatchedMethod
  {
    var d := PatchDeclaration(reg, m);
    if d.proxy.Some? then PatchedMethod(d.header, Proxy(ProxyCode(d.proxy.value, m.arguments, m.result)))
    else PatchedMethod(d.header, Original)
  }

  /** The patched form of every method, in order. */
  function PatchedMethods(reg: map<string, Anno>, methods: seq<MethodHeader>): (r: seq<PatchedMethod>)
    ensures |r| == |methods|
  {
    if methods == [] then [] else PatchedMethods(reg, methods[..|methods| - 1]) + [PatchedMethodOf(reg, methods[|methods| - 1])]
  }

  /** Method `i` of the patched class is method `i` of the original, patched on its own. */
  lemma {:induction false} PatchedMethodsIndex(reg: map<string, Anno>, methods: seq<MethodHeader>, i: int)
    requires 0 <= i < |methods|
    ensures PatchedMethods(reg, methods)[i] == PatchedMethodOf(reg, methods[i])
    decreases |methods|
  {
    if i < |methods| - 1 {
      PatchedMethodsIndex(reg, methods[..|methods| - 1], i);
    }
  }

  /** The entries the patch registers with the host for `methods`. */
  function Registered(reg: map<string, Anno>, methods: seq<MethodHeader>): set<Anno>
  {
    set m | m in methods && Key(m.name, m.descriptor) in reg :: reg[Key(m.name, m.descriptor)]
  }

  lemma RegisteredAt(reg: map<string, Anno>, methods: seq<MethodHeader>, i: int)
    requires 0 <= i < |methods| && Key(methods[i].name, methods[i].descriptor) in reg
    ensures Registered(reg, methods) != {}
  {
    assert reg[Key(methods[i].name, methods[i].descriptor)] in Registered(reg, methods);
  }

  lemma RegisteredSnoc(reg: map<string, Anno>, methods: seq<MethodHeader>, m: MethodHeader)
    ensures Registered(reg, methods + [m]) ==
      Registered(reg, methods) + if Key(m.name, m.descriptor) in reg then {reg[Key(m.name, m.descriptor)]} else {}
  {
    assert forall x :: x in methods + [m] <==> x in methods || x == m;
  }

  /** One more method of the prefix adds its patched form and its entry. */
  lemma PrefixStep(reg: map<string, Anno>, methods: seq<MethodHeader>, i: int)
    requires 0 <= i < |methods|
    ensures PatchedMethods(reg, methods[..i + 1]) == PatchedMethods(reg, methods[..i]) + [PatchedMethodOf(reg, methods[i])]
    ensures Registered(reg, methods[..i + 1]) == Registered(reg, methods[..i])
      + if Key(methods[i].name, methods[i].descriptor) in reg then {reg[Key(methods[i].name, methods[i].descriptor)]} else {}
  {
    assert methods[..i + 1] == methods[..i] + [methods[i]];
    assert methods[..i + 1][..i] == methods[..i];
    RegisteredSnoc(reg, methods[..i], methods[i]);
  }

  /** The entry of the first method of `methods` that the registry names, if any. */
  function FirstRegistered(reg: map<string, Anno>, methods: seq<MethodHeader>): Option<Anno>
  {
    if methods == [] then None
    else if Key(methods[0].name, methods[0].descriptor) in reg then Some(reg[Key(methods[0].name, methods[0].descriptor)])
    else FirstRegistered(reg, methods[1..])
  }

  lemma FirstRegisteredFrom(reg: map<string, Anno>, methods: seq<MethodHeader>, i: int)
    requires 0 <= i < |methods|
    ensures FirstRegistered(reg, methods[i..]) == if Key(methods[i].name, methods[i].descriptor) in reg
      then Some(reg[Key(methods[i].name, methods[i].descriptor)]) else FirstRegistered(reg, methods[i + 1..])
  {
    assert methods[i..][1..] == methods[i + 1..];
  }

  /**
   * The class reader's patch pass over the methods, in order: each is
   * patched by `PatchMethod`. The first throwable from the host stops the
   * pass and is passed on; it can only come from the first registered
   * method, which meets the host as it was.
   */
  method PatchClass(reg: map<string, Anno>, methods: seq<MethodHeader>, host: JavaFxApplication, platform: Platform)
    returns (r: Result<seq<PatchedMethod>, Throwable>)
    modifies host
    ensures r.Success? <==> old(host.wasmImports).Some? || LoadsPage(old(host.started), platform) || Registered(reg, methods) == {}
    ensures r.Failure? ==> r.error == RegisterError(old(host.started), platform)
    ensures r.Success? ==> r.value == PatchedMethods(reg, methods)
    ensures r.Success? ==> host.annotations == old(host.annotations) + Registered(reg, methods)
    ensures r.Success? ==> AfterRegistering(old(host.State()), platform, Registered(reg, methods), host.State())
    ensures r.Failure? ==> (FirstRegistered(reg, methods).Some?
      && RegisterEffect(old(host.State()), FirstRegistered(reg, methods).value, platform, Fail(r.error), host.State()))
  {
    ghost var h0 := host.State();
    r := PatchAll(reg, methods, host, platform);
    PassOutcome(h0, platform, Registered(reg, methods), FirstRegistered(reg, methods),
      if r.Success? then Pass else Fail(r.error), host.State());
  }

  /** What the host's state says about how the pass ended: success, the failure's throwable, and the annotations. */
  lemma PassOutcome(h0: HostState, platform: Platform, done: set<Anno>, first: Option<Anno>, r: Outcome<Throwable>, h: HostState)
    requires r.Pass? ==> AfterRegistering(h0, platform, done, h)
    requires r.Fail? ==> done != {} && first.Some? && RegisterEffect(h0, first.value, platform, Fail(r.error), h)
    ensures r.Pass? <==> h0.wasmImports.Some? || LoadsPage(h0.started, platform) || done == {}
    ensures r.Fail? ==> r.error == RegisterError(h0.started, platform)
    ensures r.Pass? ==> h.annotations == h0.annotations + done
  {
    if r.Fail? {
      RegisterEffectFailure(h0, first.value, platform, r.error, h);
    }
  }

  /** The loop of the pass. */
  method PatchAll(reg: map<string, Anno>, methods: seq<MethodHeader>, host: JavaFxApplication, platform: Platform)
    returns (r: Result<seq<PatchedMethod>, Throwable>)
    modifies host
    ensures r.Success? ==> r.value == PatchedMethods(reg, methods)
    ensures r.Success? ==> AfterRegistering(old(host.State()), platform, Registered(reg, methods), host.State())
    ensures r.Failure? ==> (Registered(reg, methods) != {} && FirstRegistered(reg, methods).Some?
      && RegisterEffect(old(host.State()), FirstRegistered(reg, methods).value, platform, Fail(r.error), host.State()))
  {
    var out: seq<PatchedMethod> := [];
    var i := 0;
    ghost var h0 := host.State();
    // The entries registered so far; while there are none, the host is as it was.
    ghost var done: set<Anno> := {};
    assert methods[0..] == methods;
    while i < |methods|
      invariant 0 <= i <= |methods|
      invariant out == PatchedMethods(reg, methods[..i])
      invariant done == Registered(reg, methods[..i])
      invariant AfterRegistering(h0, platform, done, host.State())
      invariant done == {} ==> FirstRegistered(reg, methods[i..]) == FirstRegistered(reg, methods)
    {
      var m := methods[i];
      PrefixStep(reg, methods, i);
      FirstRegisteredFrom(reg, methods, i);
      var patched := PatchNext(reg, m, host, platform, h0, done);
      if patched.Failure? {
        RegisteredAt(reg, methods, i);
        return Failure(patched.error);
      }
      out := out + [patched.value];
      done := done + if Key(m.name, m.descriptor) in reg then {reg[Key(m.name, m.descriptor)]} else {};
      i := i + 1;
    }
    assert methods[..i] == methods;
    return Success(out);
  }

  /**
   * `PatchMethod` as a step of the pass that started from the host `h0` and
   * has registered `done` so far.
   */
  method PatchNext(reg: map<string, Anno>, m: MethodHeader, host: JavaFxApplication, platform: Platform,
                   ghost h0: HostState, ghost done: set<Anno>)
    returns (r: Result<PatchedMethod, Throwable>)
    requires AfterRegistering(h0, platform, done, host.State())
    modifies host
    ensures r.Failure? ==> (done == {} && Key(m.name, m.descriptor) in reg
      && RegisterEffect(h0, reg[Key(m.name, m.descriptor)], platform, Fail(r.error), host.State()))
    ensures r.Success? ==> r.value == PatchedMethodOf(reg, m)
    ensures r.Success? ==> AfterRegistering(h0, platform,
      done + if Key(m.name, m.descriptor) in reg then {reg[Key(m.name, m.descriptor)]} else {}, host.State())
  {
    ghost var h := host.State();
    r := PatchMethod(reg, m, host, platform);
    if Key(m.name, m.descriptor) in reg {
      if r.Success? {
        AfterRegisteringStep(h0, platform, done, h, reg[Key(m.name, m.descriptor)], host.State());
      } else {
        AfterRegisteringFails(h0, platform, done, h, reg[Key(m.name, m.descriptor)], r.error, host.State());
      }
    } else {
      assert done + {} == done;
    }
  }

  /**
   * One method: declare it as `PatchDeclaration` says; a proxied method's
   * body is emitted into a new method writer by `VisitEnd`.
   */
  method PatchMethod(reg: map<string, Anno>, m: MethodHeader, host: JavaFxApplication, platform: Platform)
    returns (r: Result<PatchedMethod, Throwable>)
    modifies host
    ensures old(host.wasmImports).Some? ==> r.Success? && host.wasmImports.Some?
    ensures r.Success? <==> Key(m.name, m.descriptor) !in reg || old(host.wasmImports).Some? || LoadsPage(old(host.started), platform)
    ensures r.Failure? ==> r.error == RegisterError(old(host.started), platform)
    ensures r.Success? && Key(m.name, m.descriptor) in reg ==> host.wasmImports.Some?
    ensures r.Success? ==> r.value == PatchedMethodOf(reg, m)
    ensures r.Success? ==> (host.annotations == old(host.annotations)
      + if Key(m.name, m.descriptor) in reg then {reg[Key(m.name, m.descriptor)]} else {})
    ensures Key(m.name, m.descriptor) !in reg ==> r.Success? && unchanged(host)
    ensures Key(m.name, m.descriptor) in reg ==>
      RegisterEffect(old(host.State()), reg[Key(m.name, m.descriptor)], platform,
        if r.Success? then Pass else Fail(r.error), host.State())
  {
    var d := PatchDeclaration(reg, m);
    if d.proxy.Some? {
      var mv := new MethodWriter();
      var registered := VisitEnd(d.proxy.value, m.arguments, m.result, mv, host, platform);
      if registered.Fail? {
        return Failure(registered.error);
      }
      assert mv.code == ProxyCode(d.proxy.value, m.arguments, m.result);
      return Success(PatchedMethod(d.header, Proxy(mv.code)));
    }
    return Success(PatchedMethod(d.header, Original));
  }
}
