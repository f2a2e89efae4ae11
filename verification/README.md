# JWebAssembly API and emulator, modelled in Dafny

JWebAssembly compiles Java bytecode to WebAssembly. Its API library has two
parts that this project models.

- **Replacement classes** stand in for JDK classes when the compiler
  translates a program. Modelled here:
  - the CRC-32 table and byte loop of `java.util.zip.CRC32`;
  - the UTF-8 decoder of `java.lang.StringCoding`;
  - the single-threaded `AtomicInteger`.
- **The emulator** runs such a program inside a plain JVM.
  - A Java agent (`PremainEmulator`) scans every loaded class for `native`
    methods annotated with `@Import`. It records each in a registry keyed
    by method name plus descriptor.
  - It rewrites every registered method into a non-native proxy. The proxy
    packs its arguments into an `Object[]` and calls
    `JavaFxApplication.executeScript`.
  - While rewriting, it binds the annotation's JavaScript into the
    `wasmImports` object of a JavaFX web page.
  - The DOM wrappers pick a Java wrapper class for a browser object: by tag
    name (`HTMLElement.createWrapper`) or by node type (`NodeList.item`).

The model takes the source's own form.

- **State updated in place becomes classes.**
  - `Crc32.CrcTableCache` holds the lazily built table.
  - `Atomic.AtomicInteger` holds the value.
  - `ImportScan.Registry` and `ImportScan.ImportAnnotation` are the shared
    map and the annotation objects the scanner mutates.
  - `Patch.MethodWriter` receives the proxy's instructions.
  - `ScriptHost.JavaFxApplication` holds the emulator's static fields:
    `wasmImports`, `error`, the set `ANNOTATIONS`, and whether the platform
    has started.
- **Loops stay loops.** Each is proved against a specification function:
  - `StringCoding.DecodeSpec` for the decoder;
  - `Crc32.UpdateBytesSpec` for the CRC loop;
  - `ImportScan.ScanMethods` for the scan;
  - `Patch.ProxyCode` for the emitted proxy;
  - `ScriptHost.Coerced` for the argument conversion.
- **The emulator's state is also a value.** `ScriptHost.HostState` holds the
  four fields of `JavaFxApplication`. `ScriptHost.RegisterEffect` relates the
  state before and after one `registerScript`, on each of its four paths.
  `ScriptHost.AfterRegistering` gives the state after a patch pass has
  registered a set of imports without failing. The patch layers state their
  effect on the emulator through these two predicates.
- **Pure Java code stays pure functions:** the flag and descriptor filters,
  the patch decision, and the DOM dispatch.

Foreign parts become inputs:
- the bytecode library (class files arrive as method headers with their
  argument and return sorts);
- the JavaFX platform (`ScriptHost.Platform` says whether start-up fails
  and whether the page loads);
- the JavaScript engine (`wasmImports` is a map from module to member to
  script text);
- the browser (a DOM object is its node type and tag name).

Java `int` arithmetic wraps modulo 2^32 through `JavaTypes.Wrap`. Java
exceptions are values of `JavaTypes.Throwable`, returned in `Result` or
`Outcome`.

## Model

| member | source | states |
|---|---|---|
| Crc32.Update | src/java/util/zip/ReplacementForCRC32.java:31-33 | the `update(int,int)` stub returns 0 for every input |
| Crc32.CrcTableCache.constructor | src/java/util/zip/ReplacementForCRC32.java:75 | the table cache starts empty |
| Crc32.CrcTableCache.MakeCRCTable | src/java/util/zip/ReplacementForCRC32.java:59-73 | the result has 256 entries; entry n is n put through eight rounds of the reflected polynomial 0xEDB88320; a cached table is returned as is and a new one is stored in the cache |
| Crc32.CrcTableCache.UpdateBytes | src/java/util/zip/ReplacementForCRC32.java:39-51 | builds the table only when the cache is empty, then gives exactly `UpdateBytesSpec`: the register inverted, one table step per byte of `data[off..len)`, inverted again, with the Java index exception when the range leaves the array |
| Crc32.SignExtend | src/java/util/zip/ReplacementForCRC32.java:47 | a Java byte widened to `int` keeps its value in the low 8 bits |
| Crc32.StepIndex | src/java/util/zip/ReplacementForCRC32.java:47 | the table index `(crc ^ data[off]) & 0xFF` is the low byte of the register xor the byte, whatever the sign extension put in the high bits |
| Crc32.StepIsBitwiseStep | src/java/util/zip/ReplacementForCRC32.java:47 | one table step equals eight single-bit rounds of the polynomial |
| Crc32.RegisterIsBitwise | src/java/util/zip/ReplacementForCRC32.java:46-48 | the table-driven loop computes the bit-at-a-time CRC register over the bytes |
| Crc32.RegisterAppend | src/java/util/zip/ReplacementForCRC32.java:46-48 | running the loop over `a + b` is running it over `a` and then over `b` |
| Crc32.UpdateBytesComputesCrc | src/java/util/zip/ReplacementForCRC32.java:45-50 | within the array, the result is the CRC-32 of `data[off..len)` continued from `crc` |
| Crc32.UpdateBytesFailsOutOfBounds | src/java/util/zip/ReplacementForCRC32.java:46-47 | the call fails exactly when the range is non-empty and leaves the array, and then `off` or `len - 1` lies outside it |
| Crc32.EmptyRangeKeepsCrc | src/java/util/zip/ReplacementForCRC32.java:45-50 | when `off >= len` the input `crc` comes back unchanged, because the two inversions cancel |
| Crc32.UpdateBytesSplits | src/java/util/zip/ReplacementForCRC32.java:45-50 | updating over `[off, mid)` and then `[mid, len)` equals one update over `[off, len)` |
| Crc32.CheckValue | src/java/util/zip/ReplacementForCRC32.java:39-73 | the CRC of the ASCII digits "123456789" from 0 is 0xCBF43926, the CRC-32 check value |
| Crc32.EndIndexIsNotCount | src/java/util/zip/ReplacementForCRC32.java:46 | on "123" with `off = 1, len = 2` the code as written hashes one byte, while a count of 2 would hash two, so the results differ |
| Crc32.EndIndexAgreesFromZero | src/java/util/zip/ReplacementForCRC32.java:46 | from offset 0 the end-index reading and the count reading give the same result |
| Crc32.CountedComputesCrc | src/java/util/zip/ReplacementForCRC32.java:39-51 | the corrected loop, with `len` as a count, computes the CRC-32 of `data[off..off+len)` |
| Crc32.CountedFailsOutOfBounds | src/java/util/zip/ReplacementForCRC32.java:39-51 | the corrected loop fails exactly when `len > 0` and `[off, off+len)` leaves the array |
| StringCoding.Decode | src/de/inetsoftware/jwebassembly/api/java/lang/ReplacementForStringCoding.java:33-57 | the array result and the exception agree with `DecodeSpec`; a success is a fresh array holding the decoded chars |
| StringCoding.Fill | src/de/inetsoftware/jwebassembly/api/java/lang/ReplacementForStringCoding.java:34-54 | the while loop writes exactly the chars of `Loop` into the front of the buffer, or stops with the index exception `Loop` predicts |
| StringCoding.DecodeSequence | src/de/inetsoftware/jwebassembly/api/java/lang/ReplacementForStringCoding.java:37-53 | one pass of the loop body advances the input and output as one step of `Run`, writing no more chars than it reads bytes |
| StringCoding.ReadSequence | src/de/inetsoftware/jwebassembly/api/java/lang/ReplacementForStringCoding.java:37-46 | the lead byte fixes the sequence length (1 up to 0x7F, 2 up to 0xDF, 3 up to 0xEF, else 4); the bytes read give `CodeValue` |
| StringCoding.WriteChars | src/de/inetsoftware/jwebassembly/api/java/lang/ReplacementForStringCoding.java:47-53 | appends one char, or a surrogate pair for a four-byte sequence, when the buffer has room |
| StringCoding.Unsigned | src/de/inetsoftware/jwebassembly/api/java/lang/ReplacementForStringCoding.java:37 | `b & 0xFF` lies in 0..255 |
| StringCoding.Payload | src/de/inetsoftware/jwebassembly/api/java/lang/ReplacementForStringCoding.java:42-46 | `b & 0x3F` lies in 0..63: continuation bytes are masked, not checked |
| StringCoding.SequenceLength | src/de/inetsoftware/jwebassembly/api/java/lang/ReplacementForStringCoding.java:39-46 | every lead byte starts a sequence of 1 to 4 bytes |
| StringCoding.CodeValue | src/de/inetsoftware/jwebassembly/api/java/lang/ReplacementForStringCoding.java:37-46 | the assembled value is below 2^21, and below 2^16 for sequences shorter than four bytes |
| StringCoding.Units | src/de/inetsoftware/jwebassembly/api/java/lang/ReplacementForStringCoding.java:45-53 | a sequence yields one or two chars, never more than its own length in bytes |
| StringCoding.RunFrom | src/de/inetsoftware/jwebassembly/api/java/lang/ReplacementForStringCoding.java:36-53 | one turn of the loop: the index exception for a truncated sequence or a full buffer, otherwise the next sequence's chars appended |
| StringCoding.RunWithinCapacity | src/de/inetsoftware/jwebassembly/api/java/lang/ReplacementForStringCoding.java:35-53 | a successful run only appends and never outgrows the buffer |
| StringCoding.DecodedFitsBuffer | src/de/inetsoftware/jwebassembly/api/java/lang/ReplacementForStringCoding.java:35-53 | a decoded result never holds more chars than the buffer of `length - offset` chars |
| StringCoding.UncopiedBufferIsFull | src/de/inetsoftware/jwebassembly/api/java/lang/ReplacementForStringCoding.java:56 | the buffer is returned uncopied only when `count == length`, which happens only from offset 0 with the buffer full |
| StringCoding.NegativeSize | src/de/inetsoftware/jwebassembly/api/java/lang/ReplacementForStringCoding.java:35 | without overflow, the call raises `NegativeArraySizeException` exactly when `offset > length` |
| StringCoding.OverflowingSize | src/de/inetsoftware/jwebassembly/api/java/lang/ReplacementForStringCoding.java:35 | `length - offset` wraps as Java `int` subtraction: offset `Integer.MIN_VALUE` with length 1 gives a negative size |
| StringCoding.RunRaisesIndexErrors | src/de/inetsoftware/jwebassembly/api/java/lang/ReplacementForStringCoding.java:37-53 | the only failure inside the loop is `ArrayIndexOutOfBoundsException` |
| StringCoding.TruncatedRange | src/de/inetsoftware/jwebassembly/api/java/lang/ReplacementForStringCoding.java:36-46 | a sequence that runs past `length` is still read whole when the array holds it, and fails when the buffer cannot take its chars |
| StringCoding.TwoByteValue | src/de/inetsoftware/jwebassembly/api/java/lang/ReplacementForStringCoding.java:41-42 | the two-byte formula recovers every code point from 0x80 to 0x7FF from its UTF-8 encoding |
| StringCoding.ThreeByteValue | src/de/inetsoftware/jwebassembly/api/java/lang/ReplacementForStringCoding.java:43-44 | the three-byte formula recovers every code point from 0x800 to 0xFFFF |
| StringCoding.FourByteValue | src/de/inetsoftware/jwebassembly/api/java/lang/ReplacementForStringCoding.java:45-46 | the four-byte formula recovers every code point from 0x10000 to 0x10FFFF |
| StringCoding.CodeValueRoundTrip | src/de/inetsoftware/jwebassembly/api/java/lang/ReplacementForStringCoding.java:37-46 | decoding the UTF-8 encoding of a code point gives the code point; the encoding has four bytes exactly above the BMP |
| StringCoding.SurrogatePair | src/de/inetsoftware/jwebassembly/api/java/lang/ReplacementForStringCoding.java:47-50 | the two chars written are the UTF-16 surrogate pair, for all supplementary code points under the intended formula and below U+100000 as written |
| StringCoding.SequenceRoundTrip | src/de/inetsoftware/jwebassembly/api/java/lang/ReplacementForStringCoding.java:37-53 | one UTF-8 sequence decodes to the UTF-16 form of its code point |
| StringCoding.RunDecodes | src/de/inetsoftware/jwebassembly/api/java/lang/ReplacementForStringCoding.java:36-54 | a run over whole sequences appends exactly their chars |
| StringCoding.LoopDecodes | src/de/inetsoftware/jwebassembly/api/java/lang/ReplacementForStringCoding.java:36-54 | the loop over a range of whole sequences yields their chars |
| StringCoding.WholeSequencesDecode | src/de/inetsoftware/jwebassembly/api/java/lang/ReplacementForStringCoding.java:33-57 | `decode` of a range made of whole sequences returns their chars |
| StringCoding.DecodeRoundTrip | src/de/inetsoftware/jwebassembly/api/java/lang/ReplacementForStringCoding.java:33-57 | decoding the UTF-8 encoding of Unicode scalar values gives their UTF-16 encoding: for all of them with the intended surrogate formula, below U+100000 with the one written |
| StringCoding.LengthIsEndIndex | src/de/inetsoftware/jwebassembly/api/java/lang/ReplacementForStringCoding.java:35-36 | as written, `length` is an end index: from offset 1 with length 2, "ABC" decodes to "B", where a byte count gives "BC" |
| StringCoding.CountedDecodes | src/de/inetsoftware/jwebassembly/api/java/lang/ReplacementForStringCoding.java:33-57 | read with `length` as a byte count, `decode` gives exactly the chars of the `length` bytes from `offset` when they are whole sequences |
| StringCoding.HighSurrogateMasked | src/de/inetsoftware/jwebassembly/api/java/lang/ReplacementForStringCoding.java:48 | for U+100000 the code as written yields 0xD7C0 where UTF-16 has the high surrogate 0xDBC0; the intended formula yields 0xDBC0 |
| Atomic.AtomicInteger.constructor | src/de/inetsoftware/jwebassembly/api/java/util/concurrent/atomic/ReplacementForAtomicInteger.java:19-21 | the value starts at the given one |
| Atomic.AtomicInteger.Default | src/de/inetsoftware/jwebassembly/api/java/util/concurrent/atomic/ReplacementForAtomicInteger.java:23-24 | the no-argument constructor starts at 0 |
| Atomic.AtomicInteger.Get | src/de/inetsoftware/jwebassembly/api/java/util/concurrent/atomic/ReplacementForAtomicInteger.java:26-28 | returns the stored value |
| Atomic.AtomicInteger.Set | src/de/inetsoftware/jwebassembly/api/java/util/concurrent/atomic/ReplacementForAtomicInteger.java:30-32 | stores the new value |
| Atomic.AtomicInteger.LazySet | src/de/inetsoftware/jwebassembly/api/java/util/concurrent/atomic/ReplacementForAtomicInteger.java:34-36 | stores the new value |
| Atomic.AtomicInteger.GetAndSet | src/de/inetsoftware/jwebassembly/api/java/util/concurrent/atomic/ReplacementForAtomicInteger.java:38-42 | returns the old value and stores the new one |
| Atomic.AtomicInteger.CompareAndSet | src/de/inetsoftware/jwebassembly/api/java/util/concurrent/atomic/ReplacementForAtomicInteger.java:44-50 | succeeds exactly when the value equals `expect`, and then stores `update`; otherwise nothing changes |
| Atomic.AtomicInteger.WeakCompareAndSet | src/de/inetsoftware/jwebassembly/api/java/util/concurrent/atomic/ReplacementForAtomicInteger.java:52-58 | the same as compareAndSet |
| Atomic.AtomicInteger.GetAndIncrement | src/de/inetsoftware/jwebassembly/api/java/util/concurrent/atomic/ReplacementForAtomicInteger.java:60-62 | returns the old value; the value becomes old + 1 with 32-bit wrap-around |
| Atomic.AtomicInteger.GetAndDecrement | src/de/inetsoftware/jwebassembly/api/java/util/concurrent/atomic/ReplacementForAtomicInteger.java:64-66 | returns the old value; the value becomes old - 1 with wrap-around |
| Atomic.AtomicInteger.GetAndAdd | src/de/inetsoftware/jwebassembly/api/java/util/concurrent/atomic/ReplacementForAtomicInteger.java:68-72 | returns the old value; the value becomes old + delta with wrap-around |
| Atomic.AtomicInteger.IncrementAndGet | src/de/inetsoftware/jwebassembly/api/java/util/concurrent/atomic/ReplacementForAtomicInteger.java:74-76 | the value becomes old + 1 with wrap-around and is returned |
| Atomic.AtomicInteger.DecrementAndGet | src/de/inetsoftware/jwebassembly/api/java/util/concurrent/atomic/ReplacementForAtomicInteger.java:78-80 | the value becomes old - 1 with wrap-around and is returned |
| Atomic.AtomicInteger.AddAndGet | src/de/inetsoftware/jwebassembly/api/java/util/concurrent/atomic/ReplacementForAtomicInteger.java:82-86 | the value becomes old + delta with wrap-around and is returned |
| Atomic.AtomicInteger.UpdateLoop | src/de/inetsoftware/jwebassembly/api/java/util/concurrent/atomic/ReplacementForAtomicInteger.java:89-93 | the compare-and-set loop ends with `prev` the old value and the value `f(prev)` |
| Atomic.AtomicInteger.GetAndUpdate | src/de/inetsoftware/jwebassembly/api/java/util/concurrent/atomic/ReplacementForAtomicInteger.java:88-95 | the value becomes `f(old)`; the old value is returned |
| Atomic.AtomicInteger.UpdateAndGet | src/de/inetsoftware/jwebassembly/api/java/util/concurrent/atomic/ReplacementForAtomicInteger.java:97-104 | the value becomes `f(old)` and is returned |
| Atomic.AtomicInteger.GetAndAccumulate | src/de/inetsoftware/jwebassembly/api/java/util/concurrent/atomic/ReplacementForAtomicInteger.java:106-113 | the value becomes `g(old, x)`; the old value is returned |
| Atomic.AtomicInteger.AccumulateAndGet | src/de/inetsoftware/jwebassembly/api/java/util/concurrent/atomic/ReplacementForAtomicInteger.java:115-122 | the value becomes `g(old, x)` and is returned |
| Atomic.AtomicInteger.IntValue | src/de/inetsoftware/jwebassembly/api/java/util/concurrent/atomic/ReplacementForAtomicInteger.java:128-130 | the value itself |
| Atomic.AtomicInteger.LongValue | src/de/inetsoftware/jwebassembly/api/java/util/concurrent/atomic/ReplacementForAtomicInteger.java:132-134 | the value sign-extended to `long`; casting it back to `int` restores the value |
| Atomic.AddThenSubtract | src/de/inetsoftware/jwebassembly/api/java/util/concurrent/atomic/ReplacementForAtomicInteger.java:68-86 | adding delta and then subtracting it restores every value, across the wrap |
| Atomic.IncrementThenDecrement | src/de/inetsoftware/jwebassembly/api/java/util/concurrent/atomic/ReplacementForAtomicInteger.java:60-80 | an increment and a decrement undo each other, in either order |
| Atomic.AddTwice | src/de/inetsoftware/jwebassembly/api/java/util/concurrent/atomic/ReplacementForAtomicInteger.java:68-86 | adding a and then b is adding the wrapped sum a + b |
| Atomic.IncrementsAdd | src/de/inetsoftware/jwebassembly/api/java/util/concurrent/atomic/ReplacementForAtomicInteger.java:60-62 | k increments add k modulo 2^32 |
| Atomic.IncrementWraps | src/de/inetsoftware/jwebassembly/api/java/util/concurrent/atomic/ReplacementForAtomicInteger.java:74-80 | incrementing `Integer.MAX_VALUE` gives `Integer.MIN_VALUE`, and decrementing `MIN_VALUE` gives `MAX_VALUE` |
| ImportScan.ImportAnnotation.constructor | src/de/inetsoftware/jwebassembly/emulator/ImportAnnotationVisitor.java:48 | a new annotation object has no script yet |
| ImportScan.Registry.constructor | src/de/inetsoftware/jwebassembly/emulator/PremainEmulator.java:54 | a new registry is empty |
| ImportScan.Registry.SnapshotAfterPut | src/de/inetsoftware/jwebassembly/emulator/ImportAnnotationVisitor.java:48 | putting an object under a key changes the registry's contents at that key only |
| ImportScan.Registry.SnapshotAfterUpdate | src/de/inetsoftware/jwebassembly/emulator/ImportAnnotationVisitor.java:58-69 | mutating the object stored under one key changes the registry's contents at that key only |
| ImportScan.DefaultModuleIsSimpleName | src/de/inetsoftware/jwebassembly/emulator/ImportAnnotationVisitor.java:50 | the default module holds no '/'; it is shorter than the class name exactly when the name has a '/', and then a '/' precedes it |
| ImportScan.DefaultModuleIsSuffix | src/de/inetsoftware/jwebassembly/emulator/ImportAnnotationVisitor.java:50 | the default module is the tail of the class name |
| ImportScan.LastIndexOfIsLast | src/de/inetsoftware/jwebassembly/emulator/ImportAnnotationVisitor.java:50 | no occurrence of the char follows the index `lastIndexOf` returns |
| ImportScan.OverridesLastWins | src/de/inetsoftware/jwebassembly/emulator/ImportAnnotationVisitor.java:58-69 | after the visits, each of module, name and js holds its last visited value, or its default when never visited; other element names change nothing |
| ImportScan.OverridesFront | src/de/inetsoftware/jwebassembly/emulator/ImportAnnotationVisitor.java:58-69 | the element values are applied one after the other, in class-file order |
| ImportScan.ImportAnnotationVisitor.constructor | src/de/inetsoftware/jwebassembly/emulator/ImportAnnotationVisitor.java:46-52 | puts a new object under method name + descriptor, replacing any entry there, with module the class's simple name and name the method name |
| ImportScan.ImportAnnotationVisitor.Visit | src/de/inetsoftware/jwebassembly/emulator/ImportAnnotationVisitor.java:58-70 | "module", "name" and "js" each set their own field of the stored object; any other name leaves it unchanged |
| ImportScan.VisitMethod | src/de/inetsoftware/jwebassembly/emulator/ImportAnnotationClassVisitor.java:55-63 | a scanner exactly for a method with the native bit, carrying the class name and that method's name and descriptor |
| ImportScan.VisitAnnotation | src/de/inetsoftware/jwebassembly/emulator/ImportAnnotationMethodVisitor.java:68-73 | a value scanner exactly for the `Import` descriptor, whatever `visible` says, registered under the method's name + descriptor; otherwise the registry is unchanged |
| ImportScan.ScanAnnotation | src/de/inetsoftware/jwebassembly/emulator/ImportAnnotationMethodVisitor.java:68-73 | an `Import` annotation leaves its values, applied to the defaults, under the method's key; any other annotation leaves the registry as it was |
| ImportScan.ScanValues | src/de/inetsoftware/jwebassembly/emulator/ImportAnnotationVisitor.java:58-70 | the visits update the registry entry through the shared object, and nothing else |
| ImportScan.ScanAnnotationsOf | src/de/inetsoftware/jwebassembly/emulator/ImportAnnotationMethodVisitor.java:68-73 | scanning a method's annotations in order leaves the registry equal to `ScanAnnotations` of the old one |
| ImportScan.Scan | src/de/inetsoftware/jwebassembly/emulator/ImportAnnotationClassVisitor.java:55-63 | scanning the methods in order leaves the registry equal to `ScanMethods` of the old one |
| ImportScan.ScanAnnotationsKeys | src/de/inetsoftware/jwebassembly/emulator/ImportAnnotationMethodVisitor.java:68-73 | a method's key is added exactly when one of its annotations is an `Import` |
| ImportScan.ScanAnnotationsEntry | src/de/inetsoftware/jwebassembly/emulator/ImportAnnotationMethodVisitor.java:68-73 | the entry holds the values of the method's last `Import` annotation applied to the defaults |
| ImportScan.ScanAnnotationsKeep | src/de/inetsoftware/jwebassembly/emulator/ImportAnnotationMethodVisitor.java:68-73 | entries under other keys are neither added, removed nor changed |
| ImportScan.ScanAnnotationsWithoutImport | src/de/inetsoftware/jwebassembly/emulator/ImportAnnotationMethodVisitor.java:72 | without an `Import` annotation the registry is unchanged |
| ImportScan.ScanMethodsKeys | src/de/inetsoftware/jwebassembly/emulator/ImportAnnotationClassVisitor.java:55-63 | after the scan the registry's keys are the old keys plus the keys of exactly the native methods that carry an `Import` annotation |
| ImportScan.ScanMethodsEntry | src/de/inetsoftware/jwebassembly/emulator/ImportAnnotationClassVisitor.java:55-63 | the entry of the last such method with a given key holds its last `Import` annotation's values over the defaults |
| ImportScan.ScanMethodKeeps | src/de/inetsoftware/jwebassembly/emulator/ImportAnnotationClassVisitor.java:61-62 | a method that is not an imported native leaves every other entry alone |
| Patch.ReturnSelection | src/de/inetsoftware/jwebassembly/emulator/PatchImportMethodVisitor.java:105-127 | void pops the result and returns; int, short, byte and char use IRETURN; long LRETURN; float FRETURN; double DRETURN; every other sort, boolean included, ARETURN |
| Patch.ArgumentBlockShape | src/de/inetsoftware/jwebassembly/emulator/PatchImportMethodVisitor.java:87-99 | n arguments give 4n instructions; the i-th group is DUP, BIPUSH i, ALOAD i, AASTORE |
| Patch.ArgumentLoads | src/de/inetsoftware/jwebassembly/emulator/PatchImportMethodVisitor.java:90-97 | every load is an ALOAD from the argument's own index, whatever its sort |
| Patch.ArgumentCallsNothing | src/de/inetsoftware/jwebassembly/emulator/PatchImportMethodVisitor.java:87-99 | the argument block holds no method call |
| Patch.ProxyCodeShape | src/de/inetsoftware/jwebassembly/emulator/PatchImportMethodVisitor.java:76-130 | the proxy has 4n+6 instructions for a non-void and 4n+7 for a void method, then visitMaxs(0,0) and the end: LDC module, LDC name, BIPUSH n, ANEWARRAY Object, the arguments, one INVOKESTATIC of `executeScript`, the return |
| Patch.ProxyArguments | src/de/inetsoftware/jwebassembly/emulator/PatchImportMethodVisitor.java:87-99 | the groups for the arguments follow the array allocation in argument order |
| Patch.ProxyCallsOnce | src/de/inetsoftware/jwebassembly/emulator/PatchImportMethodVisitor.java:102 | the INVOKESTATIC after the arguments is the proxy's only method call |
| Patch.MethodWriter.constructor | src/de/inetsoftware/jwebassembly/emulator/PatchImportMethodVisitor.java:64-68 | a new method body is empty |
| Patch.MethodWriter.Emit | src/de/inetsoftware/jwebassembly/emulator/PatchImportMethodVisitor.java:76-131 | one instruction is appended and nothing else changes |
| Patch.EmitArguments | src/de/inetsoftware/jwebassembly/emulator/PatchImportMethodVisitor.java:87-99 | the for loop appends exactly the argument block |
| Patch.EmitTail | src/de/inetsoftware/jwebassembly/emulator/PatchImportMethodVisitor.java:101-131 | appends the call, the return, visitMaxs(0,0) and the end |
| Patch.EmitProxy | src/de/inetsoftware/jwebassembly/emulator/PatchImportMethodVisitor.java:76-131 | appends exactly `ProxyCode` to the method body |
| Patch.VisitEnd | src/de/inetsoftware/jwebassembly/emulator/PatchImportMethodVisitor.java:74-132 | registers the script first; when that succeeds the proxy follows and the script is bound; when it throws, nothing is emitted and the throwable is the failed start-up's or else a null pointer exception. On every path the emulator ends as `RegisterEffect` says for `registerScript`: other bindings, the stage and the error kept when a page was there |
| Patch.PatchDeclarationKeeps | src/de/inetsoftware/jwebassembly/emulator/PatchImportClassVisitor.java:53-66 | looks up `name + desc`; a registered method loses only its native bit and gets a proxy for its entry; an unregistered one keeps its access flags and has no proxy; name, descriptor, signature and exceptions never change |
| Patch.PatchedMethods | src/de/inetsoftware/jwebassembly/emulator/PatchImportClassVisitor.java:53-66 | the patched class has one method per original method |
| Patch.PatchedMethodsIndex | src/de/inetsoftware/jwebassembly/emulator/PatchImportClassVisitor.java:53-66 | each method is patched on its own, at its own position |
| Patch.RegisteredSnoc | src/de/inetsoftware/jwebassembly/emulator/PatchImportMethodVisitor.java:75 | the scripts registered for a class are those of its registered methods, one by one |
| Patch.PatchMethod | src/de/inetsoftware/jwebassembly/emulator/PatchImportClassVisitor.java:53-66 | a registered method is rewritten and its annotation registered; an unregistered one passes through with the emulator untouched; the call succeeds exactly when the method is unregistered, a page is loaded or the launch loads one, and otherwise throws the failed start-up's throwable or a null pointer exception. For a registered method, on success and on failure, the emulator ends as `RegisterEffect` says, the new binding included |
| Patch.PatchClass | src/de/inetsoftware/jwebassembly/emulator/PremainEmulator.java:60-63 | the second pass over the methods yields `PatchedMethods` and registers exactly the annotations of the registered methods; it succeeds exactly when no method is registered, a page is loaded or the launch loads one, and a failure is the failed start-up's throwable or a null pointer exception; the registry is only read. After a success the emulator is as `AfterRegistering` says: each registered target is bound to the script of a registered annotation with that target. Every other binding, the error and the stage are as before, or, when the first registration launched, as the page left them after the replay, with the stage up and no error. After a failure the emulator is as `RegisterEffect` says for the first registered method, which met the emulator as it was |
| Patch.PatchAll | src/de/inetsoftware/jwebassembly/emulator/PatchImportClassVisitor.java:53-66 | the loop over the methods: on success the patched methods and `AfterRegistering` for the registered annotations; on failure, `RegisterEffect` of the first registered method from the starting state |
| Patch.PassOutcome | src/de/inetsoftware/jwebassembly/emulator/PremainEmulator.java:60-63 | how the pass ends follows from the emulator's state: it succeeds exactly when a page was there, the launch loads one or nothing is registered; a failure throws `RegisterError`; a success adds exactly the registered annotations |
| Premain.Transform | src/de/inetsoftware/jwebassembly/emulator/PremainEmulator.java:49-72 | a fresh registry is filled by the scan; with no entry the class comes back unchanged and the emulator untouched; otherwise the patched class. It succeeds exactly when the scan finds nothing, a page is loaded or the launch loads one; otherwise the exception is rethrown: the failed start-up's throwable or a null pointer exception. After a success the emulator is as `AfterRegistering` says for the annotations of the registered methods; after a failure it is as `RegisterEffect` says for the first of them |
| Premain.RegisteredExactlyWithImports | src/de/inetsoftware/jwebassembly/emulator/PremainEmulator.java:59-63 | the patch registers some annotation with the emulator exactly when the scan found an import |
| Premain.EmptyExactlyWithoutImports | src/de/inetsoftware/jwebassembly/emulator/PremainEmulator.java:59 | the registry is empty exactly when no method is both native and `Import`-annotated |
| Premain.ProxiesForImports | src/de/inetsoftware/jwebassembly/emulator/PremainEmulator.java:55-63 | a method gets a proxy exactly when its key belongs to an imported method; every imported method gets one and loses its native bit |
| ScriptHost.JavaFxApplication.constructor | src/de/inetsoftware/jwebassembly/emulator/JWebAssemblyEmulator.java:174-190 | no namespace, no annotations, no error, platform not started |
| ScriptHost.JavaFxApplication.Bind | src/de/inetsoftware/jwebassembly/emulator/JWebAssemblyEmulator.java:210-215 | creates the module object when missing and binds `module.name` to the script, keeping every other binding |
| ScriptHost.JavaFxApplication.RegisterLoaded | src/de/inetsoftware/jwebassembly/emulator/JWebAssemblyEmulator.java:203-215 | adds the annotation to the set and binds its script, keeping every other binding |
| ScriptHost.JavaFxApplication.Replay | src/de/inetsoftware/jwebassembly/emulator/JWebAssemblyEmulator.java:271-273 | after the loop every remembered annotation's target is bound to the script of one annotation with that target, and every other binding of the page is kept |
| ScriptHost.JavaFxApplication.Execute | src/de/inetsoftware/jwebassembly/emulator/JWebAssemblyEmulator.java:262-281 | on page load: the page's `wasmImports`, or an empty object, with all annotations installed; then `main`, whose exception is captured |
| ScriptHost.JavaFxApplication.Launch | src/de/inetsoftware/jwebassembly/emulator/JWebAssemblyEmulator.java:103-148 | clears the error, starts the platform once, executes when start-up did not fail, and rethrows the captured error unwrapped |
| ScriptHost.JavaFxApplication.RegisterScript | src/de/inetsoftware/jwebassembly/emulator/JWebAssemblyEmulator.java:198-216 | launches first when there is no namespace. A start-up failure is rethrown with nothing registered, no stage, no namespace and the throwable held as the error. Without a page the annotation is remembered, the stage is up with no error, and the member access throws a null pointer exception. When the launch loads the page, the stage is up with no error and the page's namespace holds every registered script, this one included. With a page already there, the script is bound and other bindings, the stage and the error are kept. `RegisterEffect` states the four paths in one predicate |
| ScriptHost.RegisterEffectFailure | src/de/inetsoftware/jwebassembly/emulator/JWebAssemblyEmulator.java:199-210 | a failed registration found no namespace and loaded no page, and threw the start-up's throwable or a null pointer exception |
| ScriptHost.AfterRegisteringStep | src/de/inetsoftware/jwebassembly/emulator/JWebAssemblyEmulator.java:198-216 | one more successful registration extends the state of a pass by one annotation, whether it binds into the existing namespace or launches and replays |
| ScriptHost.AfterRegisteringFails | src/de/inetsoftware/jwebassembly/emulator/JWebAssemblyEmulator.java:199-210 | a registration in a pass fails only before anything was registered, from the state the pass started in |
| ScriptHost.AfterRegisteringBinds | src/de/inetsoftware/jwebassembly/emulator/JWebAssemblyEmulator.java:210-215 | after a pass, an annotation whose target no registered annotation claims with another script is bound to its own script |
| ScriptHost.JavaFxApplication.ExecuteScript | src/de/inetsoftware/jwebassembly/emulator/JWebAssemblyEmulator.java:229-241 | null pointer exception without a namespace, class cast exception for a missing module, otherwise the arguments are coerced and the bound script is called |
| ScriptHost.CoerceArguments | src/de/inetsoftware/jwebassembly/emulator/JWebAssemblyEmulator.java:232-239 | the loop rewrites the array to `Coerced` of its old contents |
| ScriptHost.CoercedArguments | src/de/inetsoftware/jwebassembly/emulator/JWebAssemblyEmulator.java:234-238 | every DOMString becomes its string and everything else stays in place; coercing twice is coercing once |
| ScriptHost.LaunchError | src/de/inetsoftware/jwebassembly/emulator/JWebAssemblyEmulator.java:107-147 | the error launch ends with is the start-up failure or the exception of `main`, and none otherwise |
| ScriptHost.InstalledStep | src/de/inetsoftware/jwebassembly/emulator/JWebAssemblyEmulator.java:271-273 | binding one more annotation keeps the installed set installed |
| ScriptHost.InstalledUnique | src/de/inetsoftware/jwebassembly/emulator/JWebAssemblyEmulator.java:271-273 | when the annotations for a target agree on their script, the replay binds exactly that script |
| Dom.CreateWrapper | src/de/inetsoftware/jwebassembly/web/dom/HTMLElement.java:44-57 | the wrapper holds the given object and is always an element class |
| Dom.CreateWrapperByTag | src/de/inetsoftware/jwebassembly/web/dom/HTMLElement.java:45-55 | "a", "area", "canvas" and "div", spelled exactly, choose their own classes; every other tag, "DIV" included, gives a plain HTMLElement |
| Dom.CreateWrapperForTagOf | src/de/inetsoftware/jwebassembly/web/dom/HTMLElement.java:46-53 | each specific element class is chosen by its own tag |
| Dom.Length | src/de/inetsoftware/jwebassembly/web/dom/NodeList.java:44-46 | the list's `length` property, the number of its items |
| Dom.Item | src/de/inetsoftware/jwebassembly/web/dom/NodeList.java:55-66 | succeeds exactly for an index below `length` |
| Dom.ItemDispatch | src/de/inetsoftware/jwebassembly/web/dom/NodeList.java:56-65 | the wrapper holds the object at the index; an element goes through `createWrapper` with its tag name, a text node is a Text and anything else a plain Node |
| Dom.ItemIgnoresTagOfNonElements | src/de/inetsoftware/jwebassembly/web/dom/NodeList.java:59-65 | the tag name is consulted only for elements |
| Dom.ItemMissesUpperCaseTags | src/de/inetsoftware/jwebassembly/web/dom/NodeList.java:59-61 | an element created as "div" is an HTMLDivElement, but read back through `item` it is a plain HTMLElement, because its DOM tag name is "DIV" |
| Dom.ItemIntendedAgreesWithCreate | src/de/inetsoftware/jwebassembly/web/dom/NodeList.java:59-61 | with the tag name lower-cased, `item` gives the element the wrapper `createElement` gave it, for every tag without capitals |
| Dom.ItemIntendedKeepsNonElements | src/de/inetsoftware/jwebassembly/web/dom/NodeList.java:62-65 | the correction changes nothing for nodes that are not elements |

## Left out

- Class-file bytes are not modelled. Reading and writing them, frame computation and descriptor parsing belong to the bytecode library, so a class arrives as its method headers with their argument and return sorts.
- The JavaFX platform is an input. Its threads, the polling loop, the latch, the `runLater` re-post for callers off the FX thread, the page URL and content, the stage and `hide` are not modelled. `ScriptHost.Platform` says whether start-up fails and whether the page loads, and a page load runs its listener at once, inside `launch`.
- The JavaScript engine is not modelled. `wasmImports` is a map from module to member to script text. `executeScript` returns the script bound to the member instead of running it.
- `ANNOTATIONS` is a set of annotation values, and the replay visits it in no particular order. For a target claimed by two annotations with different scripts, the model says only that one of them is bound.
- `ImportAnnotation.java` is not part of this model. Its fields `module`, `name` and `javaScript` are taken from their uses.
- ScriptHost.JavaFxApplication.RegisterScript: every call is taken to run on the JavaFX application thread. Off that thread, Java adds the annotation, re-posts the call with `runLater` and returns normally. So without a page, `transform` there returns the patched class where `Premain.Transform` fails with a null pointer exception.
- Crc32.CrcTableCache.UpdateBytes and StringCoding.Decode take a non-null array. In Java a null array throws a null pointer exception when the loop first reads it; for an empty range it gives `crc` back, or an empty array. The JDK methods they replace check for null before calling them.
- The JDK `Object.equals`/`hashCode` of `ImportAnnotation` are not modelled. The registry maps keys to objects, and `ANNOTATIONS` holds annotation values.
- The exception printing of `transform` is left out; the model passes the exception on unchanged.
- The `floatValue`, `doubleValue` and `toString` views of `AtomicInteger` are not modelled, because they are floating point and text formatting.
- The update and accumulate functions are Dafny functions. They are therefore pure and cannot throw or touch the counter.
- Patch.EmitArguments: `BIPUSH i` keeps the full index. The Java operand is a byte, and methods with more than 127 arguments are not considered.
- Dom.Item: an index outside the list is a script error without its JavaScript message. The browser's `item` gives null there, and the property read on null throws.
- The DOM objects are their node type and tag name. The other DOM classes only forward property reads and calls to the browser.
- The other replacement classes and the annotation schemas are not modelled. They return constants, carry JavaScript or WebAssembly text, or hold metadata only.

## Findings

| source | as written | input that shows it | evidently intended | confidence | as-written member | corrected member |
|---|---|---|---|---|---|---|
| src/java/util/zip/ReplacementForCRC32.java:46 | the loop runs `for (; off < len; off++)`, so `len` is an end index | `updateBytes(0, "123", 1, 2)` hashes only "2"; the JDK method it replaces, whose `len` is a byte count, hashes "23" | hash `len` bytes from `off` | high, not executed | Crc32.EndIndexIsNotCount | Crc32.CountedComputesCrc |
| src/de/inetsoftware/jwebassembly/api/java/lang/ReplacementForStringCoding.java:48 | the high surrogate is `0xD7C0 + ((ch >> 10) & 0x3ff)` | the bytes F4 80 80 80 (U+100000) give 0xD7C0 0xDC00; UTF-16 is 0xDBC0 0xDC00 | `0xD7C0 + (ch >> 10)`, correct for all of plane 16 | high, not executed | StringCoding.HighSurrogateMasked | StringCoding.DecodeRoundTrip |
| src/de/inetsoftware/jwebassembly/api/java/lang/ReplacementForStringCoding.java:35-36 | the buffer is `new char[length - offset]` and the loop runs `while (offset < length)`, so `length` is an end index | `decode(bytes, 1, 2)` over "ABC" gives "B"; the JDK 8 caller `String(byte[], int, int)` passes a byte count, for which it would be "BC" | decode `length` bytes from `offset` | high, not executed | StringCoding.LengthIsEndIndex | StringCoding.CountedDecodes |
| src/de/inetsoftware/jwebassembly/web/dom/NodeList.java:59-61 | the DOM `tagName` goes unchanged into the lower-case switch of `createWrapper` | a `div` element, whose `tagName` is "DIV" in an HTML document (test/de/inetsoftware/jwebassembly/web/dom/DomTest.java:34), read back through `item` is a plain HTMLElement | lower-case the tag name first, as `createElement` callers spell it | medium, not executed | Dom.ItemMissesUpperCaseTags | Dom.ItemIntendedAgreesWithCreate |
