/**
 * The parsed project the export inventory reads, reduced to the parts the
 * scanner and the classifier consult.  The parser and type checker that build
 * it are not part of this model: a project is supplied as plain data.
 */
module ProjectModel {
  import opened Options

  /** A structural property of a type: its name and the rendered text of its value declaration, if it has one. */
  datatype Property = Property(name: string, valueDeclarationText: Option<string>)

  /**
   * A type: the uninstantiated target type when it is a generic
   * instantiation, and its own properties in the order the type checker lists them.
   */
  datatype Type = Type(target: Option<Type>, properties: seq<Property>)

  /** The syntactic kinds of declaration the scanner tells apart, each carrying the type its accessor yields. */
  datatype DeclarationKind =
    | ExportAssignment(expressionType: Type)
    | ExportSpecifier(typeOnly: bool, specifierType: Type)
    | VariableDeclaration(variableType: Type)
    | OtherDeclaration

  /** A declaration: the name of the symbol it declares (absent when it has no symbol) and its kind. */
  datatype Declaration = Declaration(symbolName: Option<string>, kind: DeclarationKind)

  /** An export symbol of a source file: its declarations and its declared type. */
  datatype ExportSymbol = ExportSymbol(declarations: seq<Declaration>, declaredType: Type)

  /** A source file, seen through its export symbols in enumeration order. */
  type SourceFile = seq<ExportSymbol>

  /** The source files of the project, keyed by the file path an entry point gives. */
  type Project = map<string, SourceFile>

  /** One entry of the package's export map: the public export path and the file it points at. */
  datatype EntryPoint = EntryPoint(exportPath: string, filePath: string)

  /** Every symbol of the file has at least one declaration, so `getDeclarations()[0]` is defined. */
  predicate AllDeclared(file: SourceFile) {
    forall k :: 0 <= k < |file| ==> |file[k].declarations| > 0
  }
}
