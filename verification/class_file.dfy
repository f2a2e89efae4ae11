/**
 * What the emulator's class rewriting sees of a class file: method headers
 * with their annotations, and the instructions it emits. Parsing and writing
 * the bytes of a class file is the job of the bytecode library and is not
 * part of this model; the argument and return sorts of a method descriptor
 * are given with the header instead of being parsed from it.
 */
module ClassFile {
  import opened JavaTypes

  /** The `native` bit of the method access flags (section 4.6 of the Java Virtual Machine Specification). */
  const ACC_NATIVE: bv32 := 0x0100

  /** The field descriptor of the `Import` annotation type. */
  const IMPORT_DESCRIPTOR: string := "Lde/inetsoftware/jwebassembly/api/annotation/Import;"

  /** Opcodes, with their values from chapter 6 of the Java Virtual Machine Specification. */
  const BIPUSH: int := 16
  const LDC: int := 18
  const ALOAD: int := 25
  const AASTORE: int := 83
  const POP: int := 87
  const DUP: int := 89
  const IRETURN: int := 172
  const LRETURN: int := 173
  const FRETURN: int := 174
  const DRETURN: int := 175
  const ARETURN: int := 176
  const RETURN: int := 177
  const INVOKESTATIC: int := 184
  const ANEWARRAY: int := 189

  /** The sort of a type, as the bytecode library classifies descriptors. */
  datatype Sort = Void | Boolean | Char | Byte | Short | Int | Float | Long | Double | Array | Object | Method

  /** An annotation on a method: its type descriptor and the element values given in the class file. */
  datatype Annotation = Annotation(descriptor: string, visible: bool, values: seq<ElementValue>)

  /** One `name = value` pair of an annotation; the `Import` elements are all strings. */
  datatype ElementValue = ElementValue(name: string, value: string)

  /**
   * A method as the class reader reports it, with the argument and return
   * sorts of its descriptor.
   */
  datatype MethodHeader = MethodHeader(
    access: bv32, name: string, descriptor: string, signature: Option<string>, exceptions: seq<string>,
    annotations: seq<Annotation>, arguments: seq<Sort>, result: Sort)

  /** A class: its internal name and its methods in class-file order. */
  datatype ClassFile = ClassFile(name: string, methods: seq<MethodHeader>)

  /** The events a method writer receives: instructions, the stack and locals sizes, and the end of the method. */
  datatype Insn =
    | Op(opcode: int)
    | IntOp(opcode: int, operand: int)
    | VarOp(opcode: int, slot: int)
    | TypeOp(opcode: int, typeName: string)
    | Ldc(constant: string)
    | MethodOp(opcode: int, owner: string, name: string, descriptor: string, isInterface: bool)
    | Maxs(stack: int, locals: int)
    | End

  /**
   * The `native` test of the scanner. The Java test `(access & ACC_NATIVE) > 0`
   * compares a masked value that is 0 or 0x100, so it is a test of the bit.
   */
  predicate IsNative(access: bv32)
  {
    access & ACC_NATIVE != 0
  }

  /** The access flags with the `native` bit cleared: every other flag is as it was. */
  function ClearNative(access: bv32): (r: bv32)
    ensures !IsNative(r)
    ensures r & !ACC_NATIVE == access & !ACC_NATIVE
    ensures !IsNative(access) ==> r == access
  {
    MaskClearsNative(access);
    access & !ACC_NATIVE
  }

  lemma MaskClearsNative(access: bv32)
    ensures (access & !ACC_NATIVE) & ACC_NATIVE == 0
    ensures (access & !ACC_NATIVE) & !ACC_NATIVE == access & !ACC_NATIVE
    ensures access & ACC_NATIVE == 0 ==> access & !ACC_NATIVE == access
  {
  }

  /** The key of a method in the registry of imports: its name followed by its descriptor. */
  function Key(methodName: string, descriptor: string): (k: string)
    ensures |k| == |methodName| + |descriptor| && k[..|methodName|] == methodName && k[|methodName|..] == descriptor
  {
    methodName + descriptor
  }
}
