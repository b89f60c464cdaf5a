/**
 * `getExportsMetadata`: the role gate, the walk over the package's export
 * map, the per-symbol choice of backing type and the accumulation of the
 * records the classifier produces.
 */
module Scanner {
  import opened Options
  import opened TokenPattern
  import opened ProjectModel
  import opened Classifier

  /** The package roles whose exports are inventoried; every other role yields nothing. */
  const ScannedRoles: set<string> :=
    {"backend-plugin", "backend-plugin-module", "frontend-plugin", "frontend-plugin-module", "frontend-extensions"}

  predicate EndsWith(s: string, suffix: string) {
    |suffix| <= |s| && s[|s| - |suffix|..] == suffix
  }

  /** The entry's file path names a TypeScript source: it ends in `.ts` or `.tsx`. */
  predicate HasSourceExtension(filePath: string) {
    EndsWith(filePath, ".ts") || EndsWith(filePath, ".tsx")
  }

  /** An entry point is walked when the project has a source file for it and its path has a source extension. */
  predicate IsScanned(project: Project, e: EntryPoint) {
    e.filePath in project && HasSourceExtension(e.filePath)
  }

  /** Every symbol the walk reaches has a first declaration. */
  predicate ReachableDeclared(project: Project, entries: seq<EntryPoint>) {
    forall i :: 0 <= i < |entries| && IsScanned(project, entries[i]) ==> AllDeclared(project[entries[i].filePath])
  }

  /**
   * What the source needs to finish without throwing: for a scanned role,
   * no reached symbol lacks a declaration (the name lookup on the missing
   * first declaration would fail).
   */
  predicate Scannable(project: Project, role: string, entries: seq<EntryPoint>) {
    role in ScannedRoles ==> ReachableDeclared(project, entries)
  }

  /** The number of export symbols across the entries that are walked. */
  function ScannedSymbolCount(project: Project, entries: seq<EntryPoint>): nat
    decreases |entries|
  {
    if |entries| == 0 then 0
    else
      var e := entries[|entries| - 1];
      ScannedSymbolCount(project, entries[..|entries| - 1]) + (if IsScanned(project, e) then |project[e.filePath]| else 0)
  }

  /** The export name a declaration gives, when it is a non-empty string (an empty name is falsy and skipped). */
  function ExportName(d: Declaration): (r: Option<string>)
    ensures r.Some? <==> d.symbolName.Some? && d.symbolName.value != ""
    ensures r.Some? ==> r == d.symbolName
  {
    if d.symbolName.Some? && d.symbolName.value != "" then d.symbolName else None
  }

  /** The type backing an export, chosen by the kind of its first declaration `d`. */
  function BackingType(sym: ExportSymbol, d: Declaration): (t: Option<Type>)
    ensures d.kind.ExportAssignment? ==> t == Some(d.kind.expressionType)
    ensures d.kind.ExportSpecifier? && d.kind.typeOnly ==> t == Some(sym.declaredType)
    ensures d.kind.ExportSpecifier? && !d.kind.typeOnly ==> t == Some(d.kind.specifierType)
    ensures d.kind.VariableDeclaration? ==> t == Some(d.kind.variableType)
    ensures d.kind.OtherDeclaration? ==> t.None?
  {
    match d.kind
    case ExportAssignment(expressionType) => Some(expressionType)
    case ExportSpecifier(typeOnly, specifierType) => if typeOnly then Some(sym.declaredType) else Some(specifierType)
    case VariableDeclaration(variableType) => Some(variableType)
    case OtherDeclaration => None
  }

  /** The classifier as the walk uses it: export path, export name and backing type to an optional record. */
  type Classification = (string, string, Type) -> Option<PackageExport>

  /** `getExportMetadata` for the schema that accepts exactly `recognised`. */
  function ClassifierFor(recognised: set<string>): Classification {
    (exportPath, exportName, exportType) => Classify(recognised, exportPath, exportName, exportType)
  }

  /**
   * The record one export symbol contributes: none unless its first
   * declaration gives a non-empty name and a backing type, otherwise what the
   * classifier makes of them.
   */
  function SymbolExport(classify: Classification, exportPath: string, sym: ExportSymbol): (r: Option<PackageExport>)
    requires |sym.declarations| > 0
    ensures ExportName(sym.declarations[0]).None? || sym.declarations[0].kind.OtherDeclaration? ==> r.None?
    ensures r.Some? ==> r == classify(exportPath, sym.declarations[0].symbolName.value, BackingType(sym, sym.declarations[0]).value)
    ensures ExportName(sym.declarations[0]).Some? && !sym.declarations[0].kind.OtherDeclaration? ==>
              r == classify(exportPath, ExportName(sym.declarations[0]).value, BackingType(sym, sym.declarations[0]).value)
  {
    var d := sym.declarations[0];
    var name := ExportName(d);
    var exportType := BackingType(sym, d);
    if name.Some? && exportType.Some? then classify(exportPath, name.value, exportType.value) else None
  }

  /** The records of the symbols of one walked file, in symbol order. */
  function SymbolsExports(classify: Classification, exportPath: string, syms: seq<ExportSymbol>): (r: seq<PackageExport>)
    requires AllDeclared(syms)
    ensures |r| <= |syms|
    decreases |syms|
  {
    if |syms| == 0 then []
    else
      var n := |syms| - 1;
      var front := SymbolsExports(classify, exportPath, syms[..n]);
      match SymbolExport(classify, exportPath, syms[n])
      case Some(x) => front + [x]
      case None => front
  }

  /** The records one entry point contributes. */
  function EntryExports(classify: Classification, project: Project, e: EntryPoint): (r: seq<PackageExport>)
    requires IsScanned(project, e) ==> AllDeclared(project[e.filePath])
    ensures e.filePath !in project ==> r == []
    ensures !HasSourceExtension(e.filePath) ==> r == []
    ensures |r| <= (if IsScanned(project, e) then |project[e.filePath]| else 0)
  {
    if !IsScanned(project, e) then [] else SymbolsExports(classify, e.exportPath, project[e.filePath])
  }

  /** The records of all entry points, in export-map order. */
  function EntriesExports(classify: Classification, project: Project, entries: seq<EntryPoint>): (r: seq<PackageExport>)
    requires ReachableDeclared(project, entries)
    ensures |r| <= ScannedSymbolCount(project, entries)
    decreases |entries|
  {
    if |entries| == 0 then []
    else
      var n := |entries| - 1;
      EntriesExports(classify, project, entries[..n]) + EntryExports(classify, project, entries[n])
  }

  /** The export inventory of a package with role `role`. */
  function Scan(recognised: set<string>, project: Project, role: string, entries: seq<EntryPoint>): (r: seq<PackageExport>)
    requires Scannable(project, role, entries)
    ensures role !in ScannedRoles ==> r == []
    ensures |r| <= ScannedSymbolCount(project, entries)
  {
    if role !in ScannedRoles then [] else EntriesExports(ClassifierFor(recognised), project, entries)
  }

  /** Well-declaredness of a concatenation is that of its two parts. */
  lemma ReachableDeclaredAppend(project: Project, a: seq<EntryPoint>, b: seq<EntryPoint>)
    ensures ReachableDeclared(project, a + b) <==> ReachableDeclared(project, a) && ReachableDeclared(project, b)
  {
    assert forall i :: 0 <= i < |a| ==> (a + b)[i] == a[i];
    assert forall i :: 0 <= i < |b| ==> (a + b)[|a| + i] == b[i];
  }

  /** Appending one entry point appends its records. */
  lemma EntriesExportsSnoc(classify: Classification, project: Project, entries: seq<EntryPoint>, e: EntryPoint)
    requires ReachableDeclared(project, entries + [e])
    ensures ReachableDeclared(project, entries)
    ensures IsScanned(project, e) ==> AllDeclared(project[e.filePath])
    ensures EntriesExports(classify, project, entries + [e]) ==
            EntriesExports(classify, project, entries) + EntryExports(classify, project, e)
  {
    ReachableDeclaredAppend(project, entries, [e]);
    assert (entries + [e])[|entries|] == e;
    assert (entries + [e])[..|entries|] == entries;
  }

  /** The walk is compositional: the records of `a + b` are those of `a` followed by those of `b`. */
  lemma {:induction false} EntriesExportsAppend(classify: Classification, project: Project, a: seq<EntryPoint>, b: seq<EntryPoint>)
    requires ReachableDeclared(project, a + b)
    ensures ReachableDeclared(project, a) && ReachableDeclared(project, b)
    ensures EntriesExports(classify, project, a + b) == EntriesExports(classify, project, a) + EntriesExports(classify, project, b)
    decreases |b|
  {
    ReachableDeclaredAppend(project, a, b);
    if |b| == 0 {
      assert a + b == a;
    } else {
      var front, last := b[..|b| - 1], b[|b| - 1];
      assert b == front + [last];
      assert a + b == (a + front) + [last];
      EntriesExportsSnoc(classify, project, a + front, last);
      EntriesExportsSnoc(classify, project, front, last);
      EntriesExportsAppend(classify, project, a, front);
      calc {
        EntriesExports(classify, project, a + b);
        EntriesExports(classify, project, a + front) + EntryExports(classify, project, last);
        (EntriesExports(classify, project, a) + EntriesExports(classify, project, front)) + EntryExports(classify, project, last);
        EntriesExports(classify, project, a) + (EntriesExports(classify, project, front) + EntryExports(classify, project, last));
        EntriesExports(classify, project, a) + EntriesExports(classify, project, b);
      }
    }
  }

  /** An entry point that is not walked contributes nothing, wherever it stands in the export map. */
  lemma SkippedEntryAddsNothing(classify: Classification, project: Project, a: seq<EntryPoint>, e: EntryPoint, b: seq<EntryPoint>)
    requires ReachableDeclared(project, a + [e] + b)
    requires !IsScanned(project, e)
    ensures ReachableDeclared(project, a + b)
    ensures EntriesExports(classify, project, a + [e] + b) == EntriesExports(classify, project, a + b)
  {
    EntriesExportsAppend(classify, project, a + [e], b);
    EntriesExportsSnoc(classify, project, a, e);
    ReachableDeclaredAppend(project, a, b);
    EntriesExportsAppend(classify, project, a, b);
  }

  /** Symbol `j` of the file of entry `i` is walked and classifies to `x`. */
  predicate ProducedAt(classify: Classification, project: Project, entries: seq<EntryPoint>, i: int, j: int, x: PackageExport) {
    0 <= i < |entries| && IsScanned(project, entries[i]) &&
    0 <= j < |project[entries[i].filePath]| && |project[entries[i].filePath][j].declarations| > 0 &&
    SymbolExport(classify, entries[i].exportPath, project[entries[i].filePath][j]) == Some(x)
  }

  /** Every record of a file comes from one of its symbols, and every symbol that classifies yields a record. */
  lemma {:induction false} SymbolsExportsExact(classify: Classification, exportPath: string, syms: seq<ExportSymbol>, x: PackageExport)
    requires AllDeclared(syms)
    ensures x in SymbolsExports(classify, exportPath, syms) <==>
            exists j :: 0 <= j < |syms| && SymbolExport(classify, exportPath, syms[j]) == Some(x)
    decreases |syms|
  {
    if |syms| > 0 {
      var n := |syms| - 1;
      SymbolsExportsExact(classify, exportPath, syms[..n], x);
      assert forall j :: 0 <= j < n ==> syms[..n][j] == syms[j];
      if SymbolExport(classify, exportPath, syms[n]) == Some(x) {
        assert x in SymbolsExports(classify, exportPath, syms);
      }
      if x in SymbolsExports(classify, exportPath, syms) && x !in SymbolsExports(classify, exportPath, syms[..n]) {
        assert SymbolExport(classify, exportPath, syms[n]) == Some(x);
      }
    }
  }

  /**
   * The inventory holds exactly the records of walked symbols: each record
   * comes from a symbol of a walked entry, and each walked symbol that
   * classifies contributes its record.
   */
  lemma {:induction false} EntriesExportsExact(classify: Classification, project: Project, entries: seq<EntryPoint>, x: PackageExport)
    requires ReachableDeclared(project, entries)
    ensures x in EntriesExports(classify, project, entries) <==>
            exists i, j :: ProducedAt(classify, project, entries, i, j, x)
    decreases |entries|
  {
    if |entries| > 0 {
      var n := |entries| - 1;
      var front, e := entries[..n], entries[n];
      assert entries == front + [e];
      EntriesExportsSnoc(classify, project, front, e);
      EntriesExportsExact(classify, project, front, x);
      if x in EntriesExports(classify, project, entries) {
        if x in EntriesExports(classify, project, front) {
          var i, j :| ProducedAt(classify, project, front, i, j, x);
          assert front[i] == entries[i];
          assert ProducedAt(classify, project, entries, i, j, x);
        } else {
          assert x in EntryExports(classify, project, e);
          SymbolsExportsExact(classify, e.exportPath, project[e.filePath], x);
          var j :| 0 <= j < |project[e.filePath]| && SymbolExport(classify, e.exportPath, project[e.filePath][j]) == Some(x);
          assert ProducedAt(classify, project, entries, n, j, x);
        }
      }
      if exists i, j :: ProducedAt(classify, project, entries, i, j, x) {
        var i, j :| ProducedAt(classify, project, entries, i, j, x);
        if i < n {
          assert front[i] == entries[i];
          assert ProducedAt(classify, project, front, i, j, x);
        } else {
          SymbolsExportsExact(classify, e.exportPath, project[e.filePath], x);
          assert x in EntryExports(classify, project, e);
        }
      }
    }
  }

  /** Within one file the records follow symbol order: the records of `a + b` are those of `a` followed by those of `b`. */
  lemma {:induction false} SymbolsExportsAppend(classify: Classification, exportPath: string, a: seq<ExportSymbol>, b: seq<ExportSymbol>)
    requires AllDeclared(a) && AllDeclared(b)
    ensures AllDeclared(a + b)
    ensures SymbolsExports(classify, exportPath, a + b) == SymbolsExports(classify, exportPath, a) + SymbolsExports(classify, exportPath, b)
    decreases |b|
  {
    assert forall k :: 0 <= k < |a| ==> (a + b)[k] == a[k];
    assert forall k :: 0 <= k < |b| ==> (a + b)[|a| + k] == b[k];
    if |b| == 0 {
      assert a + b == a;
    } else {
      var front, last := b[..|b| - 1], b[|b| - 1];
      assert (a + b)[..|a + b| - 1] == a + front;
      assert b[..|b| - 1] == front;
      SymbolsExportsAppend(classify, exportPath, a, front);
    }
  }

  /**
   * The fields of a record a symbol contributes: a recognised marker token as
   * its tag, the declaration's name unless it is `default`, and the entry's
   * export path unless it is the root.
   */
  lemma SymbolExportFields(recognised: set<string>, exportPath: string, sym: ExportSymbol)
    requires |sym.declarations| > 0
    ensures var r := SymbolExport(ClassifierFor(recognised), exportPath, sym);
            r.Some? ==>
              && r.value.tag in recognised && IsMarkerToken(r.value.tag)
              && sym.declarations[0].symbolName.Some?
              && (r.value.name.None? <==> sym.declarations[0].symbolName.value == DefaultExportName)
              && (r.value.name.Some? ==> r.value.name == sym.declarations[0].symbolName)
              && (r.value.path.None? <==> exportPath == RootPath)
              && (r.value.path.Some? ==> r.value.path.value == exportPath)
  {
  }

  /** A record is in the inventory exactly when the role is scanned and some walked symbol classifies to it. */
  lemma ScanExact(recognised: set<string>, project: Project, role: string, entries: seq<EntryPoint>, x: PackageExport)
    requires Scannable(project, role, entries)
    ensures x in Scan(recognised, project, role, entries) <==>
            role in ScannedRoles && exists i, j :: ProducedAt(ClassifierFor(recognised), project, entries, i, j, x)
  {
    if role in ScannedRoles {
      EntriesExportsExact(ClassifierFor(recognised), project, entries, x);
    }
  }

  /**
   * A walked symbol with a usable name and backing type whose classification
   * is a record puts that record in the inventory.
   */
  lemma ClassifiedSymbolInScan(recognised: set<string>, project: Project, role: string, entries: seq<EntryPoint>, i: int, j: int)
    requires Scannable(project, role, entries)
    requires role in ScannedRoles
    requires 0 <= i < |entries| && IsScanned(project, entries[i])
    requires 0 <= j < |project[entries[i].filePath]|
    ensures var sym := project[entries[i].filePath][j];
            var d := sym.declarations[0];
            ExportName(d).Some? && BackingType(sym, d).Some? &&
            Classify(recognised, entries[i].exportPath, ExportName(d).value, BackingType(sym, d).value).Some? ==>
              Classify(recognised, entries[i].exportPath, ExportName(d).value, BackingType(sym, d).value).value
                in Scan(recognised, project, role, entries)
  {
    var sym := project[entries[i].filePath][j];
    var d := sym.declarations[0];
    if ExportName(d).Some? && BackingType(sym, d).Some? {
      var r := Classify(recognised, entries[i].exportPath, ExportName(d).value, BackingType(sym, d).value);
      if r.Some? {
        assert ProducedAt(ClassifierFor(recognised), project, entries, i, j, r.value);
        ScanExact(recognised, project, role, entries, r.value);
      }
    }
  }

  /**
   * Every record of the inventory carries a recognised, hyphen-free marker
   * token, and the path of a walked entry point (absent for the root).
   */
  lemma ScanRecordFields(recognised: set<string>, project: Project, role: string, entries: seq<EntryPoint>, x: PackageExport)
    requires Scannable(project, role, entries)
    requires x in Scan(recognised, project, role, entries)
    ensures x.tag in recognised && IsMarkerToken(x.tag) && '-' !in x.tag
    ensures exists i :: 0 <= i < |entries| && IsScanned(project, entries[i]) &&
                        (x.path.None? <==> entries[i].exportPath == RootPath) &&
                        (x.path.Some? ==> x.path.value == entries[i].exportPath)
  {
    ScanExact(recognised, project, role, entries, x);
    var i, j :| ProducedAt(ClassifierFor(recognised), project, entries, i, j, x);
    var e := entries[i];
    var sym := project[e.filePath][j];
    SymbolExportFields(recognised, e.exportPath, sym);
    var d := sym.declarations[0];
    NoHyphenatedTag(recognised, e.exportPath, d.symbolName.value, BackingType(sym, d).value);
  }

  /** The body of the symbol loop of `getExportsMetadata`: name and type lookup, then the classifier. */
  method SymbolMetadata(recognised: set<string>, exportPath: string, exportSymbol: ExportSymbol)
    returns (r: Option<PackageExport>)
    requires |exportSymbol.declarations| > 0
    ensures r == SymbolExport(ClassifierFor(recognised), exportPath, exportSymbol)
  {
    var declaration := exportSymbol.declarations[0];
    var exportName := ExportName(declaration);
    var exportType := BackingType(exportSymbol, declaration);
    r := None;
    if exportName.Some? && exportType.Some? {
      r := GetExportMetadata(recognised, exportPath, exportName.value, exportType.value);
    }
  }

  /** The symbol loop of `getExportsMetadata` for one walked file: classified symbols are pushed in order. */
  method FileMetadata(recognised: set<string>, exportPath: string, file: SourceFile)
    returns (exports: seq<PackageExport>)
    requires AllDeclared(file)
    ensures exports == SymbolsExports(ClassifierFor(recognised), exportPath, file)
  {
    exports := [];
    for k := 0 to |file|
      invariant exports == SymbolsExports(ClassifierFor(recognised), exportPath, file[..k])
    {
      assert file[..k + 1][..k] == file[..k];
      var exportMetadata := SymbolMetadata(recognised, exportPath, file[k]);
      if exportMetadata.Some? {
        exports := exports + [exportMetadata.value];
      }
    }
    assert file[..|file|] == file;
  }

  /**
   * `getExportsMetadata` as written: the role gate, then for each entry point
   * the file and extension checks and the records of its symbols.
   */
  method GetExportsMetadata(recognised: set<string>, project: Project, role: string, entries: seq<EntryPoint>)
    returns (exports: seq<PackageExport>)
    requires Scannable(project, role, entries)
    ensures exports == Scan(recognised, project, role, entries)
  {
    if role !in ScannedRoles {
      return [];
    }
    ghost var classify := ClassifierFor(recognised);
    exports := [];
    for i := 0 to |entries|
      invariant ReachableDeclared(project, entries[..i])
      invariant exports == EntriesExports(classify, project, entries[..i])
    {
      var e := entries[i];
      assert entries[..i + 1] == entries[..i] + [e];
      EntriesExportsSnoc(classify, project, entries[..i], e);
      if e.filePath !in project || !HasSourceExtension(e.filePath) {
        continue;
      }
      var fileExports := FileMetadata(recognised, e.exportPath, project[e.filePath]);
      exports := exports + fileExports;
    }
    assert entries[..|entries|] == entries;
  }
}
