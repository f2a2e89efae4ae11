/**
 * The scan pass of the emulator's class transformation: every `native`
 * method carrying the `Import` annotation gets an entry in a registry keyed
 * by method name and descriptor. The entry starts with defaults taken from
 * the class and method names and is then overridden, in place, by the
 * annotation's element values.
 *
 * The registry and its entries are objects, as in the emulator: the
 * registry holds the very object the annotation visitor goes on updating.
 * `ScanMethods` states the outcome of a whole scan as a value.
 */
module ImportScan {
  import opened JavaTypes
  import opened ClassFile

  /** The values of one import: the script module, the function name in it, and its JavaScript source (null when absent). */
  datatype Anno = Anno(moduleName: string, name: string, javaScript: Option<string>)

  /** The mutable import entry the scanner fills in. */
  class ImportAnnotation {
    var moduleName: string
    var name: string
    var javaScript: Option<string>

    /** A new entry. Its module and name are set by the scanner right after creation; its script stays null unless given. */
    constructor ()
      ensures javaScript == None
    {
      moduleName, name, javaScript := "", "", None;
    }

    function Value(): Anno
      reads this
    {
      Anno(moduleName, name, javaScript)
    }
  }

  /** The map from `methodName + descriptor` to import entries that one transformation shares between its passes. */
  class Registry {
    var entries: map<string, ImportAnnotation>

    constructor ()
      ensures entries == map[]
    {
      entries := map[];
    }

    /** The values the entries hold now. */
    function Snapshot(): (m: map<string, Anno>)
      reads this, entries.Values
      ensures m.Keys == entries.Keys
    {
      map k | k in entries :: entries[k].Value()
    }

    /** Updating the entry under `key`, and no other, changes the snapshot at `key` only. */
    twostate lemma SnapshotAfterUpdate(key: string)
      requires unchanged(this) && key in entries
      requires forall k :: k in entries && k != key ==> unchanged(entries[k])
      ensures Snapshot() == old(Snapshot())[key := entries[key].Value()]
    {
    }

    /** Putting a new entry under `key` changes the snapshot at `key` only. */
    twostate lemma SnapshotAfterPut(key: string, new a: ImportAnnotation)
      requires entries == old(entries)[key := a]
      requires forall k :: k in old(entries) ==> unchanged(old(entries)[k])
      ensures Snapshot() == old(Snapshot())[key := a.Value()]
    {
    }
  }

  /** The index of the last `c` in `s`, or -1. */
  function LastIndexOf(s: string, c: char): (i: int)
    ensures -1 <= i < |s|
    ensures i >= 0 ==> s[i] == c
  {
    if s == [] then -1
    else if s[|s| - 1] == c then |s| - 1
    else LastIndexOf(s[..|s| - 1], c)
  }

  /** The default module: the simple name of the class, after the last `/` of its internal name. */
  function DefaultModule(className: string): string
  {
    className[LastIndexOf(className, '/') + 1..]
  }

  /**
   * The default module is the longest suffix of the class name without a
   * `/`: the whole name when there is no `/`, otherwise what follows the
   * last one.
   */
  lemma DefaultModuleIsSimpleName(className: string)
    ensures '/' !in DefaultModule(className)
    ensures '/' in className <==> |DefaultModule(className)| < |className|
    ensures |DefaultModule(className)| < |className| ==> className[|className| - |DefaultModule(className)| - 1] == '/'
  {
    var i := LastIndexOf(className, '/');
    assert |className| - |DefaultModule(className)| == i + 1;
    LastIndexOfIsLast(className, '/');
    NoSlashAfter(className, i);
    SlashPresent(className, i);
  }

  /** The default module is a suffix of the class name. */
  lemma DefaultModuleIsSuffix(className: string)
    ensures |DefaultModule(className)| <= |className|
    ensures className[|className| - |DefaultModule(className)|..] == DefaultModule(className)
  {
    var i := LastIndexOf(className, '/');
    assert |className| - |DefaultModule(className)| == i + 1;
  }

  /** Nothing after the index `LastIndexOf` finds is the character looked for. */
  lemma {:induction false} LastIndexOfIsLast(s: string, c: char)
    ensures forall j :: LastIndexOf(s, c) < j < |s| ==> s[j] != c
    decreases |s|
  {
    if s != [] && s[|s| - 1] != c {
      LastIndexOfIsLast(s[..|s| - 1], c);
    }
  }

  lemma NoSlashAfter(s: string, i: int)
    requires -1 <= i < |s|
    requires forall j :: i < j < |s| ==> s[j] != '/'
    ensures '/' !in s[i + 1..]
  {
    var m := s[i + 1..];
    forall j | 0 <= j < |m|
      ensures m[j] != '/'
    {
      assert m[j] == s[i + 1 + j];
    }
  }

  lemma SlashPresent(className: string, i: int)
    requires i == LastIndexOf(className, '/')
    ensures '/' in className <==> i >= 0
  {
    if '/' in className {
      LastIndexOfIsLast(className, '/');
      var j :| 0 <= j < |className| && className[j] == '/';
      assert i >= j;
    }
  }

  /** The defaults of a new entry: the simple class name as module, the method name as name, no script. */
  function Defaults(className: string, methodName: string): Anno
  {
    Anno(DefaultModule(className), methodName, None)
  }

  /** The effect of one element value: `module`, `name` and `js` each set their own field; any other element is ignored. */
  function Override(a: Anno, element: string, value: string): (r: Anno)
  {
    match element
    case "module" => a.(moduleName := value)
    case "name" => a.(name := value)
    case "js" => a.(javaScript := Some(value))
    case _ => a
  }

  /** The element values applied in order. */
  function Overrides(a: Anno, values: seq<ElementValue>): Anno
  {
    if values == [] then a
    else
      var last := values[|values| - 1];
      Override(Overrides(a, values[..|values| - 1]), last.name, last.value)
  }

  /** The value of the last element called `element` in `values`, if there is one. */
  function LastValue(values: seq<ElementValue>, element: string): Option<string>
  {
    if values == [] then None
    else
      var later := LastValue(values[1..], element);
      if later.Some? then later
      else if values[0].name == element then Some(values[0].value)
      else None
  }

  /** The value an optional override gives a field whose current value is `d`. */
  function OrElse<T>(o: Option<T>, d: T): T
  {
    if o.Some? then o.value else d
  }

  /**
   * Each field of an entry ends up with the last value given for its
   * element, and keeps its earlier value when none is given; elements with
   * other names change nothing.
   */
  lemma {:induction false} OverridesLastWins(a: Anno, values: seq<ElementValue>)
    ensures Overrides(a, values).moduleName == OrElse(LastValue(values, "module"), a.moduleName)
    ensures Overrides(a, values).name == OrElse(LastValue(values, "name"), a.name)
    ensures Overrides(a, values).javaScript == if LastValue(values, "js").Some? then LastValue(values, "js") else a.javaScript
    decreases |values|
  {
    if values != [] {
      var first := values[0];
      OverridesLastWins(Override(a, first.name, first.value), values[1..]);
      OverridesFront(a, values);
    }
  }

  /** Applying element values from the end agrees with applying the first one and then the rest. */
  lemma {:induction false} OverridesFront(a: Anno, values: seq<ElementValue>)
    requires values != []
    ensures Overrides(a, values) == Overrides(Override(a, values[0].name, values[0].value), values[1..])
    decreases |values|
  {
    if |values| > 1 {
      var init := values[..|values| - 1];
      OverridesFront(a, init);
      assert init[1..] == values[1..][..|values[1..]| - 1];
      assert init[0] == values[0];
    } else {
      assert values[1..] == [];
    }
  }

  /** What the scan keeps of a method: the class name and the method's own name and descriptor. */
  datatype MethodScanner = MethodScanner(className: string, methodName: string, descriptor: string)

  /** The class visitor's `visitMethod`: a scanner for a `native` method, none for any other. */
  function VisitMethod(className: string, access: bv32, name: string, descriptor: string): (r: Option<MethodScanner>)
    ensures r.Some? <==> IsNative(access)
    ensures r.Some? ==> r.value.className == className && r.value.methodName == name && r.value.descriptor == descriptor
  {
    if IsNative(access) then Some(MethodScanner(className, name, descriptor)) else None
  }

  /** The scan of the annotations of one native method, as a value: each `Import` annotation (re)defines the method's entry. */
  function ScanAnnotations(reg: map<string, Anno>, scanner: MethodScanner, annos: seq<Annotation>): map<string, Anno>
  {
    if annos == [] then reg
    else
      var r := ScanAnnotations(reg, scanner, annos[..|annos| - 1]);
      var a := annos[|annos| - 1];
      if a.descriptor == IMPORT_DESCRIPTOR
      then r[Key(scanner.methodName, scanner.descriptor) := Overrides(Defaults(scanner.className, scanner.methodName), a.values)]
      else r
  }

  /** The scan of one method, as a value: only a native method's annotations are looked at. */
  function ScanMethod(reg: map<string, Anno>, className: string, m: MethodHeader): map<string, Anno>
  {
    match VisitMethod(className, m.access, m.name, m.descriptor)
    case Some(scanner) => ScanAnnotations(reg, scanner, m.annotations)
    case None => reg
  }

  /** The scan of a class's methods, as a value. */
  function ScanMethods(reg: map<string, Anno>, className: string, methods: seq<MethodHeader>): map<string, Anno>
  {
    if methods == [] then reg
    else ScanMethod(ScanMethods(reg, className, methods[..|methods| - 1]), className, methods[|methods| - 1])
  }

  /** A method the scan registers: `native`, with an `Import` annotation. */
  predicate Imported(m: MethodHeader)
  {
    IsNative(m.access) && exists j :: 0 <= j < |m.annotations| && m.annotations[j].descriptor == IMPORT_DESCRIPTOR
  }

  /** The annotation scan adds the method's key exactly when one of its annotations is an `Import`. */
  lemma {:induction false} ScanAnnotationsKeys(reg: map<string, Anno>, scanner: MethodScanner, annos: seq<Annotation>)
    ensures ScanAnnotations(reg, scanner, annos).Keys ==
      reg.Keys + if exists j :: 0 <= j < |annos| && annos[j].descriptor == IMPORT_DESCRIPTOR
                 then {Key(scanner.methodName, scanner.descriptor)} else {}
    decreases |annos|
  {
    if annos != [] {
      var init := annos[..|annos| - 1];
      ScanAnnotationsKeys(reg, scanner, init);
      if exists j :: 0 <= j < |init| && init[j].descriptor == IMPORT_DESCRIPTOR {
        var j :| 0 <= j < |init| && init[j].descriptor == IMPORT_DESCRIPTOR;
        assert annos[j] == init[j];
      }
      if exists j :: 0 <= j < |annos| && annos[j].descriptor == IMPORT_DESCRIPTOR {
        var j :| 0 <= j < |annos| && annos[j].descriptor == IMPORT_DESCRIPTOR;
        if j < |init| {
          assert init[j] == annos[j];
        }
      }
    }
  }

  /**
   * After a scan, the registry holds its earlier keys and exactly the keys
   * `name + descriptor` of the native methods with an `Import` annotation.
   */
  lemma {:induction false} ScanMethodsKeys(reg: map<string, Anno>, className: string, methods: seq<MethodHeader>)
    ensures ScanMethods(reg, className, methods).Keys == reg.Keys + ImportedKeys(methods)
    decreases |methods|
  {
    if methods != [] {
      var init := methods[..|methods| - 1];
      var m := methods[|methods| - 1];
      ScanMethodsKeys(reg, className, init);
      assert methods == init + [m];
      if IsNative(m.access) {
        ScanAnnotationsKeys(ScanMethods(reg, className, init), MethodScanner(className, m.name, m.descriptor), m.annotations);
      }
      ImportedKeysSnoc(init, m);
    }
  }

  /** The keys of the imported methods of `methods`. */
  function ImportedKeys(methods: seq<MethodHeader>): set<string>
  {
    set m | m in methods && Imported(m) :: Key(m.name, m.descriptor)
  }

  lemma ImportedKeysSnoc(init: seq<MethodHeader>, m: MethodHeader)
    ensures ImportedKeys(init + [m]) == ImportedKeys(init) + if Imported(m) then {Key(m.name, m.descriptor)} else {}
  {
    assert forall x :: x in init + [m] <==> x in init || x == m;
  }

  /**
   * The entry of a method is built from its last `Import` annotation: the
   * defaults overridden by that annotation's values, as long as no later
   * method has the same key.
   */
  lemma {:induction false} ScanMethodsEntry(reg: map<string, Anno>, className: string, methods: seq<MethodHeader>, i: int, j: int)
    requires 0 <= i < |methods| && IsNative(methods[i].access)
    requires 0 <= j < |methods[i].annotations| && methods[i].annotations[j].descriptor == IMPORT_DESCRIPTOR
    requires forall j' :: j < j' < |methods[i].annotations| ==> methods[i].annotations[j'].descriptor != IMPORT_DESCRIPTOR
    requires forall i' :: i < i' < |methods| && Imported(methods[i']) ==>
      Key(methods[i'].name, methods[i'].descriptor) != Key(methods[i].name, methods[i].descriptor)
    ensures var m := methods[i]; var r := ScanMethods(reg, className, methods);
      Key(m.name, m.descriptor) in r && r[Key(m.name, m.descriptor)] == Overrides(Defaults(className, m.name), m.annotations[j].values)
    decreases |methods|
  {
    var m := methods[i];
    var init := methods[..|methods| - 1];
    var last := methods[|methods| - 1];
    if i == |methods| - 1 {
      ScanAnnotationsEntry(ScanMethods(reg, className, init), MethodScanner(className, m.name, m.descriptor), m.annotations, j);
    } else {
      assert init[i] == m;
      forall i' | i < i' < |init| && Imported(init[i'])
        ensures Key(init[i'].name, init[i'].descriptor) != Key(m.name, m.descriptor)
      {
        assert init[i'] == methods[i'];
      }
      ScanMethodsEntry(reg, className, init, i, j);
      ScanMethodKeeps(ScanMethods(reg, className, init), className, last, Key(m.name, m.descriptor));
    }
  }

  /** Scanning a method leaves alone the entries under keys other than its own, and all of them when it is not imported. */
  lemma ScanMethodKeeps(reg: map<string, Anno>, className: string, m: MethodHeader, key: string)
    requires Imported(m) ==> Key(m.name, m.descriptor) != key
    requires key in reg
    ensures key in ScanMethod(reg, className, m) && ScanMethod(reg, className, m)[key] == reg[key]
  {
    if IsNative(m.access) {
      var scanner := MethodScanner(className, m.name, m.descriptor);
      if Imported(m) {
        ScanAnnotationsKeep(reg, scanner, m.annotations, key);
      } else {
        ScanAnnotationsWithoutImport(reg, scanner, m.annotations);
      }
    }
  }

  /** The entry from the last `Import` annotation of a method. */
  lemma {:induction false} ScanAnnotationsEntry(reg: map<string, Anno>, scanner: MethodScanner, annos: seq<Annotation>, j: int)
    requires 0 <= j < |annos| && annos[j].descriptor == IMPORT_DESCRIPTOR
    requires forall j' :: j < j' < |annos| ==> annos[j'].descriptor != IMPORT_DESCRIPTOR
    ensures var r := ScanAnnotations(reg, scanner, annos); var key := Key(scanner.methodName, scanner.descriptor);
      key in r && r[key] == Overrides(Defaults(scanner.className, scanner.methodName), annos[j].values)
    decreases |annos|
  {
    if j < |annos| - 1 {
      var init := annos[..|annos| - 1];
      assert init[j] == annos[j];
      ScanAnnotationsEntry(reg, scanner, init, j);
    }
  }

  /** Scanning a method's annotations changes no entry under another key. */
  lemma {:induction false} ScanAnnotationsKeep(reg: map<string, Anno>, scanner: MethodScanner, annos: seq<Annotation>, key: string)
    requires key != Key(scanner.methodName, scanner.descriptor)
    ensures key in ScanAnnotations(reg, scanner, annos) <==> key in reg
    ensures key in reg ==> ScanAnnotations(reg, scanner, annos)[key] == reg[key]
    decreases |annos|
  {
    if annos != [] {
      ScanAnnotationsKeep(reg, scanner, annos[..|annos| - 1], key);
    }
  }

  /** Annotations that are not `Import` annotations leave the registry as it was. */
  lemma {:induction false} ScanAnnotationsWithoutImport(reg: map<string, Anno>, scanner: MethodScanner, annos: seq<Annotation>)
    requires forall j :: 0 <= j < |annos| ==> annos[j].descriptor != IMPORT_DESCRIPTOR
    ensures ScanAnnotations(reg, scanner, annos) == reg
    decreases |annos|
  {
    if annos != [] {
      ScanAnnotationsWithoutImport(reg, scanner, annos[..|annos| - 1]);
    }
  }

  /** The annotation visitor of one `Import` annotation; it keeps the entry it registered. */
  class ImportAnnotationVisitor {
    var anno: ImportAnnotation

    /**
     * Puts a new entry with the default values under `methodName + descriptor`,
     * replacing any entry under that key.
     */
    constructor (className: string, methodName: string, descriptor: string, annotations: Registry)
      modifies annotations
      ensures fresh(anno)
      ensures annotations.entries == old(annotations.entries)[Key(methodName, descriptor) := anno]
      ensures anno.Value() == Defaults(className, methodName)
    {
      var a := new ImportAnnotation();
      annotations.entries := annotations.entries[Key(methodName, descriptor) := a];
      a.moduleName := DefaultModule(className);
      a.name := methodName;
      anno := a;
    }

    /** One element value of the annotation, written into the registered entry. */
    method Visit(name: string, value: string)
      modifies anno
      ensures anno.Value() == Override(old(anno.Value()), name, value)
    {
      match name
      case "module" => anno.moduleName := value;
      case "name" => anno.name := value;
      case "js" => anno.javaScript := Some(value);
      case _ =>
    }
  }

  /**
   * The method visitor's `visitAnnotation`: an `Import` annotation, and only
   * that, starts an annotation visitor, which registers the entry under the
   * method's name and the method's own descriptor. `visible` plays no part.
   */
  method VisitAnnotation(scanner: MethodScanner, descriptor: string, visible: bool, annotations: Registry)
    returns (v: Option<ImportAnnotationVisitor>)
    modifies annotations
    ensures v.Some? <==> descriptor == IMPORT_DESCRIPTOR
    ensures v.None? ==> annotations.entries == old(annotations.entries)
    ensures v.Some? ==> (fresh(v.value) && fresh(v.value.anno)
      && annotations.entries == old(annotations.entries)[Key(scanner.methodName, scanner.descriptor) := v.value.anno]
      && v.value.anno.Value() == Defaults(scanner.className, scanner.methodName))
  {
    if descriptor == IMPORT_DESCRIPTOR {
      var visitor := new ImportAnnotationVisitor(scanner.className, scanner.methodName, scanner.descriptor, annotations);
      return Some(visitor);
    }
    return None;
  }

  /**
   * The class reader's scan pass, which sees method headers and annotations
   * only, with the class visitor made for `className`: the registry ends up
   * as `ScanMethods` says.
   */
  method Scan(className: string, methods: seq<MethodHeader>, annotations: Registry)
    modifies annotations
    ensures annotations.Snapshot() == ScanMethods(old(annotations.Snapshot()), className, methods)
  {
    var i := 0;
    while i < |methods|
      invariant 0 <= i <= |methods|
      invariant annotations.Snapshot() == ScanMethods(old(annotations.Snapshot()), className, methods[..i])
    {
      var m := methods[i];
      assert methods[..i + 1][..i] == methods[..i];
      var scanner := VisitMethod(className, m.access, m.name, m.descriptor);
      if scanner.Some? {
        ScanAnnotationsOf(scanner.value, m.annotations, annotations);
      }
      i := i + 1;
    }
    assert methods[..i] == methods;
  }

  /** The annotations of one native method, in order. */
  method ScanAnnotationsOf(scanner: MethodScanner, annos: seq<Annotation>, annotations: Registry)
    modifies annotations
    ensures annotations.Snapshot() == ScanAnnotations(old(annotations.Snapshot()), scanner, annos)
  {
    var j := 0;
    while j < |annos|
      invariant 0 <= j <= |annos|
      invariant annotations.Snapshot() == ScanAnnotations(old(annotations.Snapshot()), scanner, annos[..j])
    {
      assert annos[..j + 1][..j] == annos[..j];
      ScanAnnotation(scanner, annos[j], annotations);
      j := j + 1;
    }
    assert annos[..j] == annos;
  }

  /** One annotation of a native method: an `Import` annotation (re)defines the method's entry, any other is skipped. */
  method ScanAnnotation(scanner: MethodScanner, a: Annotation, annotations: Registry)
    modifies annotations
    ensures annotations.Snapshot() ==
      if a.descriptor == IMPORT_DESCRIPTOR
      then old(annotations.Snapshot())[Key(scanner.methodName, scanner.descriptor) := Overrides(Defaults(scanner.className, scanner.methodName), a.values)]
      else old(annotations.Snapshot())
  {
    label before:
    var v := VisitAnnotation(scanner, a.descriptor, a.visible, annotations);
    if v.Some? {
      var key := Key(scanner.methodName, scanner.descriptor);
      annotations.SnapshotAfterPut@before(key, v.value.anno);
      ScanValues(v.value, a.values, annotations, key);
    }
  }

  /** The element values of one `Import` annotation, each written into the registered entry. */
  method ScanValues(visitor: ImportAnnotationVisitor, values: seq<ElementValue>, annotations: Registry, ghost key: string)
    requires key in annotations.entries && annotations.entries[key] == visitor.anno
    requires forall k :: k in annotations.entries && k != key ==> annotations.entries[k] != visitor.anno
    modifies visitor.anno
    ensures annotations.Snapshot() == old(annotations.Snapshot())[key := Overrides(old(visitor.anno.Value()), values)]
  {
    ghost var start := visitor.anno.Value();
    var j := 0;
    while j < |values|
      invariant 0 <= j <= |values|
      invariant visitor.anno.Value() == Overrides(start, values[..j])
      invariant annotations.Snapshot() == old(annotations.Snapshot())[key := visitor.anno.Value()]
    {
      assert values[..j + 1][..j] == values[..j];
      label before:
      visitor.Visit(values[j].name, values[j].value);
      annotations.SnapshotAfterUpdate@before(key);
      j := j + 1;
    }
    assert values[..j] == values;
  }
}
