/**
 * The emulator's load hook, `transform`: scan the class into a fresh
 * registry; a class without imports is returned as it was, any other class
 * is patched with the registry the scan filled. A throwable is passed on
 * unchanged (after being printed, which is not modelled).
 */
module Premain {
  import opened JavaTypes
  import opened ClassFile
  import opened ImportScan
  import opened ScriptHost
  import opened Patch

  /** What `transform` returns: the original class bytes, or the patched class. */
  datatype Transformed = Unchanged | Patched(className: string, methods: seq<PatchedMethod>)

  /** The registry a scan of `methods` fills, starting from an empty one. */
  function Imports(className: string, methods: seq<MethodHeader>): map<string, Anno>
  {
    ScanMethods(map[], className, methods)
  }

  method Transform(className: string, cls: ClassFile, host: JavaFxApplication, platform: Platform)
    returns (r: Result<Transformed, Throwable>)
    modifies host
    ensures Imports(className, cls.methods) == map[] ==> r == Success(Unchanged) && unchanged(host)
    ensures Imports(className, cls.methods) != map[] && r.Success? ==>
      r.value == Patched(cls.name, PatchedMethods(Imports(className, cls.methods), cls.methods))
      && host.annotations == old(host.annotations) + Registered(Imports(className, cls.methods), cls.methods)
    ensures r.Success? <==>
      Imports(className, cls.methods) == map[] || old(host.wasmImports).Some? || LoadsPage(old(host.started), platform)
    ensures r.Failure? ==> r.error == RegisterError(old(host.started), platform)
    ensures r.Success? ==> AfterRegistering(old(host.State()), platform, Registered(Imports(className, cls.methods), cls.methods), host.State())
    ensures r.Failure? ==> (FirstRegistered(Imports(className, cls.methods), cls.methods).Some?
      && RegisterEffect(old(host.State()), FirstRegistered(Imports(className, cls.methods), cls.methods).value,
        platform, Fail(r.error), host.State()))
  {
    var annotations := new Registry();
    assert annotations.Snapshot() == map[];
    Scan(className, cls.methods, annotations);
    RegisteredExactlyWithImports(className, cls.methods);
    if annotations.entries == map[] {
      assert annotations.Snapshot().Keys == {};
      return Success(Unchanged);
    }
    assert annotations.Snapshot().Keys != {};
    var patched := PatchClass(annotations.Snapshot(), cls.methods, host, platform);
    match patched
    case Failure(th) => return Failure(th);
    case Success(methods) => return Success(Patched(cls.name, methods));
  }

  /** The registry stays empty exactly when no method of the class is a native method with an `Import` annotation. */
  lemma EmptyExactlyWithoutImports(className: string, methods: seq<MethodHeader>)
    ensures Imports(className, methods) == map[] <==> forall m :: m in methods ==> !Imported(m)
  {
    ScanMethodsKeys(map[], className, methods);
    if exists m :: m in methods && Imported(m) {
      var m :| m in methods && Imported(m);
      assert Key(m.name, m.descriptor) in ImportedKeys(methods);
      assert Key(m.name, m.descriptor) in Imports(className, methods);
    }
    if Imports(className, methods) != map[] {
      var k :| k in Imports(className, methods);
      assert k in ImportedKeys(methods);
    }
  }

  /** The patch registers some import with the host exactly when the scan found one. */
  lemma RegisteredExactlyWithImports(className: string, methods: seq<MethodHeader>)
    ensures Registered(Imports(className, methods), methods) == {} <==> Imports(className, methods) == map[]
  {
    var reg := Imports(className, methods);
    if reg != map[] {
      ScanMethodsKeys(map[], className, methods);
      var k :| k in reg;
      var m :| m in methods && Imported(m) && Key(m.name, m.descriptor) == k;
      assert reg[k] in Registered(reg, methods);
    }
  }

  /**
   * After a scan, method `i` gets a proxy exactly when some imported method
   * of the class has its name and descriptor; in particular every imported
   * method gets one.
   */
  lemma ProxiesForImports(className: string, methods: seq<MethodHeader>, i: int)
    requires 0 <= i < |methods|
    ensures var p := PatchedMethods(Imports(className, methods), methods)[i];
      (p.body.Proxy? <==> Key(methods[i].name, methods[i].descriptor) in ImportedKeys(methods))
      && (Imported(methods[i]) ==> p.body.Proxy? && !IsNative(p.header.access))
  {
    ScanMethodsKeys(map[], className, methods);
    PatchedMethodsIndex(Imports(className, methods), methods, i);
    PatchDeclarationKeeps(Imports(className, methods), methods[i]);
    if Imported(methods[i]) {
      assert Key(methods[i].name, methods[i].descriptor) in ImportedKeys(methods);
    }
  }
}
