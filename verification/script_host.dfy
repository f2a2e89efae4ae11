/**
 * The bookkeeping of the emulator's script host, `JavaFxApplication`: the
 * engine's `wasmImports` namespace, the set of registered imports, and the
 * error slot that `launch` clears and rethrows.
 *
 * The JavaScript engine is abstracted to its namespace: a map from module
 * name to a map from function name to the script text assigned to it. The
 * JavaFX platform is a `Platform` value saying how start-up and page
 * loading turn out; both happen synchronously inside `Launch`.
 */
module ScriptHost {
  import opened JavaTypes
  import opened ImportScan

  /** The engine's `wasmImports` object: module name to function name to script text. */
  type Namespace = map<string, map<string, string>>

  /** The script text bound to `moduleName.name`, if any. */
  function Lookup(ns: Namespace, moduleName: string, name: string): Option<string>
  {
    if moduleName in ns && name in ns[moduleName] then Some(ns[moduleName][name]) else None
  }

  /** The right-hand side of the assignment script: a null script is concatenated as `null`. */
  function ScriptText(a: Anno): string
  {
    if a.javaScript.Some? then a.javaScript.value else "null"
  }

  /** Two imports that bind the same function of the same module. */
  predicate SameTarget(a: Anno, b: Anno)
  {
    a.moduleName == b.moduleName && a.name == b.name
  }

  /**
   * The namespace `ns` results from installing `annos` over `ns0`: every
   * import is bound, to the script of an import with the same target, and
   * every binding no import targets is as in `ns0`.
   */
  ghost predicate Installed(ns: Namespace, ns0: Namespace, annos: set<Anno>)
  {
    AllBound(ns, annos) && OthersKept(ns, ns0, annos)
  }

  /** Every import of `annos` is bound to the script of an import of `annos` with the same target. */
  ghost predicate AllBound(ns: Namespace, annos: set<Anno>)
  {
    forall a {:trigger BoundAt(ns, annos, a)} :: a in annos ==> BoundAt(ns, annos, a)
  }

  /** The target of `a` is bound to the script of an import of `annos` with the same target. */
  ghost predicate BoundAt(ns: Namespace, annos: set<Anno>, a: Anno)
  {
    exists b :: b in annos && SameTarget(a, b) && Lookup(ns, a.moduleName, a.name) == Some(ScriptText(b))
  }

  /** Every binding no import of `annos` targets is as in `ns0`. */
  ghost predicate OthersKept(ns: Namespace, ns0: Namespace, annos: set<Anno>)
  {
    forall m, n :: (forall b :: b in annos ==> !(b.moduleName == m && b.name == n)) ==>
      Lookup(ns, m, n) == Lookup(ns0, m, n)
  }

  /** How the JavaFX platform behaves when asked to start and load the page. */
  datatype Platform = Platform(
    /** The outcome of starting the JavaFX application, when it is not running yet. */
    startup: Outcome<Throwable>,
    /** Whether the page load reaches the state SUCCEEDED. */
    pageLoaded: bool,
    /** The page's own `wasmImports` object, or None when reading it raises a script error. */
    pageImports: Option<Namespace>)

  /** The namespace after a page load: the page's own, or a new empty object. */
  function PageNamespace(platform: Platform): (ns: Namespace)
    ensures platform.pageImports.None? ==> ns == map[]
  {
    if platform.pageImports.Some? then platform.pageImports.value else map[]
  }

  /** The error `launch` ends with: a failed start-up, otherwise a failure of `main` after the page loaded. */
  function LaunchError(started: bool, platform: Platform, main: Outcome<Throwable>): (e: Option<Throwable>)
    ensures e.Some? ==> (!started && platform.startup == Fail(e.value)) || (platform.pageLoaded && main == Fail(e.value))
    ensures e.None? ==> (started || platform.startup.Pass?) && (!platform.pageLoaded || main.Pass?)
  {
    if !started && platform.startup.Fail? then Some(platform.startup.error)
    else if platform.pageLoaded && main.Fail? then Some(main.error)
    else None
  }

  /** Whether `launch` loads a page: the platform is (or gets) started and the load succeeds. */
  predicate LoadsPage(started: bool, platform: Platform)
  {
    (started || platform.startup.Pass?) && platform.pageLoaded
  }

  /** The throwable `registerScript` fails with: a failed start-up, otherwise the null dereference of a missing namespace. */
  function RegisterError(started: bool, platform: Platform): Throwable
  {
    if !started && platform.startup.Fail? then platform.startup.error else NullPointerException
  }

  /** An argument of `executeScript`: a `DOMString` marker object, a Java string, null, or any other object. */
  datatype Value = DomString(text: string) | Str(s: string) | Null | Other(id: nat)

  /** The coercion of one argument: a `DOMString` becomes the string it stands for. */
  function Coerce(v: Value): (r: Value)
    ensures !r.DomString?
    ensures !v.DomString? ==> r == v
  {
    if v.DomString? then Str(v.text) else v
  }

  /** The coercion of the whole argument array. */
  function Coerced(s: seq<Value>): (r: seq<Value>)
    ensures |r| == |s|
  {
    seq(|s|, i requires 0 <= i < |s| => Coerce(s[i]))
  }

  /** Coercing keeps the length and the order, leaves no `DOMString`, changes nothing else, and a second coercion changes nothing. */
  lemma CoercedArguments(s: seq<Value>)
    ensures forall i :: 0 <= i < |s| ==> !Coerced(s)[i].DomString?
    ensures forall i :: 0 <= i < |s| && !s[i].DomString? ==> Coerced(s)[i] == s[i]
    ensures forall i :: 0 <= i < |s| && s[i].DomString? ==> Coerced(s)[i] == Str(s[i].text)
    ensures Coerced(Coerced(s)) == Coerced(s)
  {
  }

  /** Binding one import over `ns` binds its target, and only its target, to its script. */
  lemma InstalledStep(ns: Namespace, next: Namespace, ns0: Namespace, done: set<Anno>, a: Anno)
    requires Installed(ns, ns0, done)
    requires Lookup(next, a.moduleName, a.name) == Some(ScriptText(a))
    requires forall m, n :: !(m == a.moduleName && n == a.name) ==> Lookup(next, m, n) == Lookup(ns, m, n)
    ensures Installed(next, ns0, done + {a})
  {
    AllBoundStep(ns, next, done, a);
    OthersKeptStep(ns, next, ns0, done, a);
  }

  lemma AllBoundStep(ns: Namespace, next: Namespace, done: set<Anno>, a: Anno)
    requires AllBound(ns, done)
    requires Lookup(next, a.moduleName, a.name) == Some(ScriptText(a))
    requires forall m, n :: !(m == a.moduleName && n == a.name) ==> Lookup(next, m, n) == Lookup(ns, m, n)
    ensures AllBound(next, done + {a})
  {
    var all := done + {a};
    forall x {:trigger BoundAt(next, all, x)} | x in all
      ensures BoundAt(next, all, x)
    {
      if SameTarget(x, a) {
        assert a in all && SameTarget(x, a) && Lookup(next, x.moduleName, x.name) == Some(ScriptText(a));
      } else {
        assert x in done && BoundAt(ns, done, x);
        var b :| b in done && SameTarget(x, b) && Lookup(ns, x.moduleName, x.name) == Some(ScriptText(b));
        assert b in all && Lookup(next, x.moduleName, x.name) == Some(ScriptText(b));
      }
    }
  }

  lemma OthersKeptStep(ns: Namespace, next: Namespace, ns0: Namespace, done: set<Anno>, a: Anno)
    requires OthersKept(ns, ns0, done)
    requires forall m, n :: !(m == a.moduleName && n == a.name) ==> Lookup(next, m, n) == Lookup(ns, m, n)
    ensures OthersKept(next, ns0, done + {a})
  {
    var all := done + {a};
    forall m, n | (forall b :: b in all ==> !(b.moduleName == m && b.name == n))
      ensures Lookup(next, m, n) == Lookup(ns0, m, n)
    {
      assert a in all;
    }
  }

  /** An import installed with no other import aimed at the same target is bound to its own script. */
  lemma InstalledUnique(ns: Namespace, ns0: Namespace, annos: set<Anno>, a: Anno)
    requires Installed(ns, ns0, annos)
    requires a in annos
    requires forall b :: b in annos && SameTarget(a, b) ==> ScriptText(b) == ScriptText(a)
    ensures Lookup(ns, a.moduleName, a.name) == Some(ScriptText(a))
  {
    assert BoundAt(ns, annos, a);
    var b :| b in annos && SameTarget(a, b) && Lookup(ns, a.moduleName, a.name) == Some(ScriptText(b));
  }

  /** Binding `a` over `ns0`: its target holds its script, every other binding is as in `ns0`. */
  ghost predicate Rebound(ns: Namespace, ns0: Namespace, a: Anno)
  {
    Lookup(ns, a.moduleName, a.name) == Some(ScriptText(a))
    && forall m, n :: !(m == a.moduleName && n == a.name) ==> Lookup(ns, m, n) == Lookup(ns0, m, n)
  }

  /** The fields of the JavaFX application as one value. */
  datatype HostState = HostState(wasmImports: Option<Namespace>, annotations: set<Anno>, error: Option<Throwable>, started: bool)

  /**
   * What `registerScript(anno)` does to the host `h`, ending in `h'` with
   * outcome `r`: with a namespace, bind the script; without one, launch,
   * which either loads the page (the remembered imports are replayed, then
   * the script is bound), fails to start (the throwable is rethrown and kept
   * as the error), or leaves no page (the import is remembered, and the
   * member access on null throws).
   */
  ghost predicate RegisterEffect(h: HostState, anno: Anno, platform: Platform, r: Outcome<Throwable>, h': HostState)
  {
    if h.wasmImports.Some? then
      r == Pass && h' == h.(wasmImports := h'.wasmImports, annotations := h.annotations + {anno})
      && h'.wasmImports.Some? && Rebound(h'.wasmImports.value, h.wasmImports.value, anno)
    else if LoadsPage(h.started, platform) then
      r == Pass && h'.annotations == h.annotations + {anno} && h'.error == None && h'.started
      && h'.wasmImports.Some? && Installed(h'.wasmImports.value, PageNamespace(platform), h'.annotations)
      && Lookup(h'.wasmImports.value, anno.moduleName, anno.name) == Some(ScriptText(anno))
    else if !h.started && platform.startup.Fail? then
      r == Fail(platform.startup.error) && h' == h.(error := Some(platform.startup.error))
    else
      r == Fail(NullPointerException) && h' == HostState(None, h.annotations + {anno}, None, true)
  }

  /**
   * The host `h` after registering the imports `done` one by one, with no
   * failure, starting from `h0`: unchanged while there are none; otherwise
   * each of them is bound to the script of one of them with its target, and
   * the rest of the namespace is as in `h0`'s, or, when the first
   * registration launched, the page's with the remembered imports replayed.
   */
  ghost predicate AfterRegistering(h0: HostState, platform: Platform, done: set<Anno>, h: HostState)
  {
    if done == {} then h == h0
    else
      h.annotations == h0.annotations + done && h.wasmImports.Some? && AllBound(h.wasmImports.value, done)
      && if h0.wasmImports.Some? then
           h.error == h0.error && h.started == h0.started && OthersKept(h.wasmImports.value, h0.wasmImports.value, done)
         else
           LoadsPage(h0.started, platform) && h.error == None && h.started
           && Installed(h.wasmImports.value, PageNamespace(platform), h.annotations)
  }

  /** A successful registration extends `AfterRegistering` by one import. */
  lemma AfterRegisteringStep(h0: HostState, platform: Platform, done: set<Anno>, h: HostState, a: Anno, h': HostState)
    requires AfterRegistering(h0, platform, done, h)
    requires RegisterEffect(h, a, platform, Pass, h')
    ensures AfterRegistering(h0, platform, done + {a}, h')
  {
    var ns' := h'.wasmImports.value;
    if done == {} {
      assert {} + {a} == {a};
      if h0.wasmImports.Some? {
        InstalledStep(h0.wasmImports.value, ns', h0.wasmImports.value, {}, a);
      } else {
        AllBoundStep(ns', ns', {}, a);
      }
    } else {
      var ns := h.wasmImports.value;
      AllBoundStep(ns, ns', done, a);
      if h0.wasmImports.Some? {
        OthersKeptStep(ns, ns', h0.wasmImports.value, done, a);
      } else {
        InstalledStep(ns, ns', PageNamespace(platform), h.annotations, a);
      }
    }
  }

  /**
   * After the registrations, an import whose target no other registered
   * import claims with another script is bound to its own script.
   */
  lemma AfterRegisteringBinds(h0: HostState, platform: Platform, done: set<Anno>, h: HostState, a: Anno)
    requires AfterRegistering(h0, platform, done, h) && a in done
    requires forall b :: b in done && SameTarget(a, b) ==> ScriptText(b) == ScriptText(a)
    ensures h.wasmImports.Some? && Lookup(h.wasmImports.value, a.moduleName, a.name) == Some(ScriptText(a))
  {
    assert BoundAt(h.wasmImports.value, done, a);
  }

  /** A registration fails only while nothing has been registered, from the host as it was. */
  lemma AfterRegisteringFails(h0: HostState, platform: Platform, done: set<Anno>, h: HostState, a: Anno, e: Throwable, h': HostState)
    requires AfterRegistering(h0, platform, done, h)
    requires RegisterEffect(h, a, platform, Fail(e), h')
    ensures done == {} && RegisterEffect(h0, a, platform, Fail(e), h')
  {
  }

  /** A failed registration found no namespace and loaded no page, and threw `RegisterError`. */
  lemma RegisterEffectFailure(h: HostState, anno: Anno, platform: Platform, e: Throwable, h': HostState)
    requires RegisterEffect(h, anno, platform, Fail(e), h')
    ensures h.wasmImports.None? && !LoadsPage(h.started, platform) && e == RegisterError(h.started, platform)
  {
  }

  /** The emulator's JavaFX application; its static fields become the fields of one object. */
  class JavaFxApplication {
    /** The page's `wasmImports` object; None while no page is loaded (null). */
    var wasmImports: Option<Namespace>
    /** The registered imports (`ANNOTATIONS`), a set. */
    var annotations: set<Anno>
    /** The throwable captured by the launcher, rethrown by `launch`. */
    var error: Option<Throwable>
    /** Whether the JavaFX stage exists. */
    var started: bool

    /** The fields as one value. */
    function State(): HostState
      reads this
    {
      HostState(wasmImports, annotations, error, started)
    }

    /** The state before the first launch: no page, no imports, no error, no stage. */
    constructor ()
      ensures wasmImports == None && annotations == {} && error == None && !started
    {
      wasmImports, annotations, error, started := None, {}, None, false;
    }

    /**
     * The engine side of `registerScript`: create the module object when
     * the module is undefined, then assign the function.
     */
    method Bind(anno: Anno)
      requires wasmImports.Some?
      modifies this
      ensures wasmImports.Some? && annotations == old(annotations) && error == old(error) && started == old(started)
      ensures Lookup(wasmImports.value, anno.moduleName, anno.name) == Some(ScriptText(anno))
      ensures forall m, n :: !(m == anno.moduleName && n == anno.name) ==>
        Lookup(wasmImports.value, m, n) == Lookup(old(wasmImports.value), m, n)
      ensures wasmImports.value.Keys == old(wasmImports.value.Keys) + {anno.moduleName}
    {
      var ns := wasmImports.value;
      if anno.moduleName !in ns {
        ns := ns[anno.moduleName := map[]];
        wasmImports := Some(ns);
      }
      wasmImports := Some(ns[anno.moduleName := ns[anno.moduleName][anno.name := ScriptText(anno)]]);
    }

    /** `registerScript` once a page is loaded: add the import to the set, then bind it. */
    method RegisterLoaded(anno: Anno)
      requires wasmImports.Some?
      modifies this
      ensures wasmImports.Some? && annotations == old(annotations) + {anno} && error == old(error) && started == old(started)
      ensures Lookup(wasmImports.value, anno.moduleName, anno.name) == Some(ScriptText(anno))
      ensures forall m, n :: !(m == anno.moduleName && n == anno.name) ==>
        Lookup(wasmImports.value, m, n) == Lookup(old(wasmImports.value), m, n)
    {
      annotations := annotations + {anno};
      Bind(anno);
    }

    /** The replay after a page load: every registered import is registered again, in no particular order. */
    method Replay()
      requires wasmImports.Some?
      modifies this
      ensures wasmImports.Some? && annotations == old(annotations) && error == old(error) && started == old(started)
      ensures Installed(wasmImports.value, old(wasmImports.value), annotations)
    {
      var todo := annotations;
      ghost var done: set<Anno> := {};
      ghost var ns0 := wasmImports.value;
      while todo != {}
        invariant wasmImports.Some? && annotations == old(annotations) && error == old(error) && started == old(started)
        invariant todo + done == annotations
        invariant Installed(wasmImports.value, ns0, done)
        decreases |todo|
      {
        var a :| a in todo;
        ghost var ns := wasmImports.value;
        RegisterLoaded(a);
        InstalledStep(ns, wasmImports.value, ns0, done, a);
        todo := todo - {a};
        done := done + {a};
      }
    }

    /**
     * `execute` and its page-load listener: on a successful load, take the
     * page's namespace (or create an empty one), replay the registered
     * imports, then run `main`, capturing what it throws.
     */
    method Execute(platform: Platform, main: Outcome<Throwable>)
      modifies this
      ensures annotations == old(annotations) && started == old(started)
      ensures !platform.pageLoaded ==> wasmImports == old(wasmImports) && error == old(error)
      ensures platform.pageLoaded ==> wasmImports.Some? && Installed(wasmImports.value, PageNamespace(platform), annotations)
      ensures platform.pageLoaded ==> error == if main.Fail? then Some(main.error) else old(error)
    {
      if platform.pageLoaded {
        wasmImports := Some(PageNamespace(platform));
        Replay();
        if main.Fail? {
          error := Some(main.error);
        }
      }
    }

    /**
     * `launch`: clear the error, start the platform when no stage exists,
     * execute when nothing failed, and rethrow the captured throwable itself.
     */
    method Launch(platform: Platform, main: Outcome<Throwable>) returns (r: Outcome<Throwable>)
      modifies this
      ensures annotations == old(annotations)
      ensures started == (old(started) || platform.startup.Pass?)
      ensures error == LaunchError(old(started), platform, main)
      ensures r == if error.Some? then Fail(error.value) else Pass
      ensures LoadsPage(old(started), platform) ==>
        wasmImports.Some? && Installed(wasmImports.value, PageNamespace(platform), annotations)
      ensures !LoadsPage(old(started), platform) ==> wasmImports == old(wasmImports)
    {
      error := None;
      if !started {
        match platform.startup
        case Fail(th) => error := Some(th);
        case Pass => started := true;
      }
      if error.None? {
        Execute(platform, main);
      }
      if error.Some? {
        return Fail(error.value);
      }
      return Pass;
    }

    /**
     * `registerScript`: launch with an empty `main` when no page is loaded,
     * rethrowing what the launch throws; then add the import and bind it.
     * Binding without a namespace is a null dereference.
     */
    method RegisterScript(anno: Anno, platform: Platform) returns (r: Outcome<Throwable>)
      modifies this
      ensures old(wasmImports).Some? ==> r == Pass && started == old(started) && error == old(error)
      ensures old(wasmImports).Some? ==> wasmImports.Some? && forall m, n :: !(m == anno.moduleName && n == anno.name) ==>
        Lookup(wasmImports.value, m, n) == Lookup(old(wasmImports.value), m, n)
      ensures old(wasmImports).None? && LoadsPage(old(started), platform) ==>
        started && error == None && wasmImports.Some? && Installed(wasmImports.value, PageNamespace(platform), annotations)
      ensures old(wasmImports).None? && !old(started) && platform.startup.Fail? ==>
        r == Fail(platform.startup.error) && annotations == old(annotations)
        && !started && error == Some(platform.startup.error) && wasmImports.None?
      ensures old(wasmImports).None? && !LoadsPage(old(started), platform) && (old(started) || platform.startup.Pass?) ==>
        r == Fail(NullPointerException) && annotations == old(annotations) + {anno}
        && started && error == None && wasmImports.None?
      ensures r.Pass? <==> old(wasmImports).Some? || LoadsPage(old(started), platform)
      ensures r.Fail? ==> r.error == RegisterError(old(started), platform)
      ensures r.Pass? ==> (annotations == old(annotations) + {anno} && wasmImports.Some?
        && Lookup(wasmImports.value, anno.moduleName, anno.name) == Some(ScriptText(anno)))
      ensures RegisterEffect(old(State()), anno, platform, r, State())
    {
      if wasmImports.None? {
        var launched := Launch(platform, Pass);
        if launched.Fail? {
          return launched;
        }
      }
      if wasmImports.None? {
        annotations := annotations + {anno};
        return Fail(NullPointerException);
      }
      ghost var ns := wasmImports.value;
      ghost var done := annotations;
      RegisterLoaded(anno);
      if old(wasmImports).None? {
        InstalledStep(ns, wasmImports.value, PageNamespace(platform), done, anno);
      }
      return Pass;
    }

    /**
     * `executeScript`: look the module up, coerce the arguments in place,
     * and hand the call to the engine. Returns the script bound to the
     * called function (None when there is none); what the engine does with
     * it is outside the model. A missing namespace is a null dereference and
     * an undefined module fails the cast to a script object.
     */
    method ExecuteScript(moduleName: string, methodName: string, args: array?<Value>) returns (r: Result<Option<string>, Throwable>)
      modifies args
      ensures wasmImports.None? ==> r == Failure(NullPointerException)
      ensures wasmImports.Some? && moduleName !in wasmImports.value ==> r == Failure(ClassCastException)
      ensures r.Failure? && args != null ==> args[..] == old(args[..])
      ensures wasmImports.Some? && moduleName in wasmImports.value ==>
        r == Success(Lookup(wasmImports.value, moduleName, methodName))
        && (args != null ==> args[..] == Coerced(old(args[..])))
    {
      if wasmImports.None? {
        return Failure(NullPointerException);
      }
      if moduleName !in wasmImports.value {
        return Failure(ClassCastException);
      }
      if args != null {
        CoerceArguments(args);
      }
      return Success(Lookup(wasmImports.value, moduleName, methodName));
    }
  }

  /** The coercion loop of `executeScript`, in place over the argument array. */
  method CoerceArguments(args: array<Value>)
    modifies args
    ensures args[..] == Coerced(old(args[..]))
  {
    ghost var input := args[..];
    var i := 0;
    var length := args.Length;
    while i < length
      invariant 0 <= i <= length == args.Length
      invariant args[..i] == Coerced(input)[..i]
      invariant args[i..] == input[i..]
    {
      if args[i].DomString? {
        args[i] := Str(args[i].text);
      }
      assert args[i] == Coerced(input)[i];
      i := i + 1;
    }
  }
}
