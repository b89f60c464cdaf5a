# Export inventory of a Backstage package

A Dafny model of the export-inventory pipeline of the Backstage CLI
(`packages/cli/src/lib/exports.ts`). For a package in one of five plugin
roles, the pipeline walks the package's export map, looks up the parsed
source file of each entry point and classifies each export symbol. It reads
the `$$type` marker property on the shape of the symbol's type and returns
one record per classified export: its tag (`type`), its `name` (omitted for
`default`) and its `path` (omitted for `.`).

Modules, one per concern:

- `Options` (`options.dfy`): the optional value that stands for `undefined`/`null`.
- `TokenPattern` (`token.dfy`): the regular expression `@backstage\/\w+`.
  It has an independent specification (leftmost match, greedy maximal word run)
  and is proved against it in both directions.
- `ProjectModel` (`project.dfy`): the parsed project as plain data. A source
  file is a sequence of export symbols. A declaration is `ExportAssignment`,
  `ExportSpecifier(typeOnly)`, `VariableDeclaration` or `OtherDeclaration`, and
  carries the type its accessor would return. A type has an optional target type
  and a sequence of properties. A property has a name and optional declaration text.
- `Classifier` (`classifier.dfy`): `getExportMetadata`. The generic unwrap,
  the search for the first `$$type` property whose token validates, and the
  record construction.
- `Scanner` (`scanner.dfy`): `getExportsMetadata`. The role gate, the
  entry-point filter, the backing-type choice by declaration kind, and the
  accumulation in export-map order, then symbol order.

The recognised classification tags are a parameter, `recognised: set<string>`.
It stands for the export-type schema of `@backstage/cli-node`, which is not part
of this model. Every operation is a pure function, so classification is
deterministic and idempotent by construction. Each TypeScript loop also has a
method that mirrors it statement by statement (`GetExportMetadata`,
`FileMetadata`, `GetExportsMetadata`), and each method is proved equal to the
functional definition.

Four details of the code differ from a naive reading of it:

- The classifier does not stop at the first `$$type` property. It returns the
  first one whose token validates (`Classifier.FirstTagged`).
- `\w` does not match `-`. Declaration text containing
  `@backstage/frontend-plugin-api` therefore yields the token
  `@backstage/frontend`, not the full package name
  (`TokenPattern.HyphenEndsToken`). No record ever has a hyphenated tag
  (`Classifier.NoHyphenatedTag`).
- A symbol with no declarations does not silently contribute nothing: the code
  calls `getSymbol()` on the missing first declaration (exports.ts:55-56) before
  its `if (declaration)` guard (line 59), so it throws. The model makes "every
  reached symbol has a declaration" a precondition (`Scanner.Scannable`).
- An export name that is the empty string is falsy in `exportName && exportType`,
  so it yields no record (`Scanner.ExportName`).

## Model

| member | source | states |
|---|---|---|
| TokenPattern.WordRun | packages/cli/src/lib/exports.ts:103 | the run `\w+` consumes: every character in it is in `[A-Za-z0-9_]`, it stays inside the text, and it stops only at the end of the text or at a non-word character |
| TokenPattern.WordRunIsMaximalRun | packages/cli/src/lib/exports.ts:103 | any run of word characters that ends at a non-word character or at the end of the text is the run `\w+` takes, so greedy matching is unambiguous |
| TokenPattern.FindMatch | packages/cli/src/lib/exports.ts:103 | finds the first position at or after the start where `@backstage/` is followed by a word character; no earlier position matches, and none at all when the result is absent |
| TokenPattern.TokenAt | packages/cli/src/lib/exports.ts:103 | the captured group is a substring of the text at the match position, has the shape `@backstage/` plus at least one word character, and cannot be extended by a further word character |
| TokenPattern.ExtractToken | packages/cli/src/lib/exports.ts:100-103 | no token exactly when no position matches; otherwise the token of the leftmost match, shaped `@backstage/` plus a non-empty word run |
| TokenPattern.ExtractTokenAtLeftmost | packages/cli/src/lib/exports.ts:103 | conversely, whenever `i` is the leftmost match, the extracted token is the one captured at `i` |
| TokenPattern.HyphenEndsToken | packages/cli/src/lib/exports.ts:103 | `@backstage/frontend-plugin-api` yields `@backstage/frontend`, because `-` is not a word character |
| Classifier.Validate | packages/cli/src/lib/exports.ts:105-109 | the schema check succeeds exactly on a present token in the recognised set, and its data is that token |
| Classifier.Shape | packages/cli/src/lib/exports.ts:96 | properties are searched on the target type of a generic instantiation, and on the export type itself otherwise |
| Classifier.MarkerTag | packages/cli/src/lib/exports.ts:99-109 | a property yields a tag exactly when it is named `$$type`, has declaration text, and that text's token is recognised; the tag is the token |
| Classifier.FirstTagged | packages/cli/src/lib/exports.ts:98-125 | finds the first property that yields a tag, skipping `$$type` properties that fail validation; nothing is found exactly when no property yields a tag |
| Classifier.FirstTaggedUnique | packages/cli/src/lib/exports.ts:98-125 | conversely, the first property that yields a tag is the one found |
| Classifier.MakeExport | packages/cli/src/lib/exports.ts:110-120 | the record's `type` is the validated tag; `name` is absent exactly for `default` and otherwise equals the export name; `path` is absent exactly for `.` and otherwise equals the export path |
| Classifier.Classify | packages/cli/src/lib/exports.ts:90-128 | null exactly when no property of the shape yields a tag; otherwise the record built from the first property that yields one, whose tag is recognised and marker-shaped |
| Classifier.ClassifyPicksFirstTagged | packages/cli/src/lib/exports.ts:98-123 | conversely, the first property of the shape that yields a tag decides the record, whatever properties follow it |
| Classifier.NoHyphenatedTag | packages/cli/src/lib/exports.ts:103-111 | no record ever carries a tag containing `-`, even when the recognised set holds one |
| Classifier.GetExportMetadata | packages/cli/src/lib/exports.ts:90-128 | the loop with an early return computes the same result as the classification |
| Scanner.ExportName | packages/cli/src/lib/exports.ts:56 | the export name exists exactly when the declaration's symbol has a non-empty name, and then it is that name |
| Scanner.BackingType | packages/cli/src/lib/exports.ts:59-71 | the backing type by declaration kind: the expression's type for an export assignment, the symbol's declared type for a type-only specifier, the specifier's own type for a value specifier, the variable's type for a variable declaration, none otherwise |
| Scanner.SymbolExport | packages/cli/src/lib/exports.ts:54-83 | a symbol with no usable name or of another declaration kind adds nothing; a symbol with a usable name and a backing type adds exactly the classifier's result for them, and any record it adds is that result |
| Scanner.SymbolsExports | packages/cli/src/lib/exports.ts:54-84 | a walked file adds at most one record per export symbol |
| Scanner.EntryExports | packages/cli/src/lib/exports.ts:43-53 | an entry point adds nothing when its file path has no source file, and nothing when the path ends in neither `.ts` nor `.tsx`, each on its own; otherwise at most one record per symbol |
| Scanner.EntriesExports | packages/cli/src/lib/exports.ts:43-87 | the walk yields at most as many records as there are symbols across walked entry points |
| Scanner.Scan | packages/cli/src/lib/exports.ts:25-88 | an unrecognised role yields no records whatever the entry points; the result never exceeds the number of symbols across walked entry points |
| Scanner.EntriesExportsSnoc | packages/cli/src/lib/exports.ts:43-85 | adding an entry point at the end of the export map appends exactly its records |
| Scanner.EntriesExportsAppend | packages/cli/src/lib/exports.ts:43-87 | records follow export-map order: the records for `a + b` are those for `a` followed by those for `b` |
| Scanner.SymbolsExportsAppend | packages/cli/src/lib/exports.ts:54-84 | within a file, records follow symbol order: the records for `a + b` are those for `a` followed by those for `b` |
| Scanner.SkippedEntryAddsNothing | packages/cli/src/lib/exports.ts:44-52 | removing an entry point that is not walked, from any position, leaves the records unchanged |
| Scanner.SymbolsExportsExact | packages/cli/src/lib/exports.ts:54-84 | a record is among a file's records exactly when some symbol of the file classifies to it |
| Scanner.EntriesExportsExact | packages/cli/src/lib/exports.ts:43-87 | a record is in the walk's result exactly when some symbol of some walked entry point classifies to it |
| Scanner.ClassifiedSymbolInScan | packages/cli/src/lib/exports.ts:73-82 | a walked symbol with a usable name and backing type whose classification is a record has that record in the inventory |
| Scanner.ScanExact | packages/cli/src/lib/exports.ts:31-87 | a record is in the inventory exactly when the role is one of the five and some walked symbol classifies to it |
| Scanner.SymbolExportFields | packages/cli/src/lib/exports.ts:55-120 | a symbol's record has a recognised marker token as its tag; its `name` is the declaration's name, absent exactly for `default`; its `path` is the entry's export path, absent exactly for `.` |
| Scanner.ScanRecordFields | packages/cli/src/lib/exports.ts:73-120 | every record in the inventory has a recognised, hyphen-free marker token, and the export path of some walked entry point (absent exactly for `.`) |
| Scanner.SymbolMetadata | packages/cli/src/lib/exports.ts:55-83 | the body of the symbol loop computes the symbol's record |
| Scanner.FileMetadata | packages/cli/src/lib/exports.ts:54-84 | the symbol loop over a walked file pushes exactly the file's records, in order |
| Scanner.GetExportsMetadata | packages/cli/src/lib/exports.ts:25-88 | the role gate, entry loop and pushes compute exactly the inventory |

## Left out

- Parsing and type checking (the ts-morph `Project`, `getSourceFile`, `getExportSymbols`, `getType`, `getDeclaredType`, `getTargetType`, `getText`): a foreign library. The project they expose is given as plain data, so each declaration carries the type its accessor would return and each property carries its rendered declaration text.
- Path resolution (`resolve(dir, filePath)`): filesystem plumbing. The project's source files are keyed by the entry point's relative file path, which stands for the resolver composed with the lookup. The base directory is therefore not a parameter.
- The export-type schema of `@backstage/cli-node`: its source is not part of this model. It is modelled as a closed set of strings, `recognised`. It accepts a present token in the set and returns that token unchanged, which assumes an enumeration schema with no transformation.
- Symbols with no declarations: the code throws at the name lookup on the missing first declaration. The model requires that no reached symbol lacks a declaration (`Scanner.Scannable`) rather than modelling the exception.
- `Object.entries` key ordering: the export map is an ordered sequence of entry points, and the model keeps whatever order it is given. The order of export symbols and type properties is likewise taken as given.
- `PackageRole`: modelled as a string. Only membership in the five scanned roles matters.
- Truthiness of `exportType`: every type the accessors return is an object, so it is always truthy. Only `OtherDeclaration` yields no type.
- Regular expressions in general: only the one pattern used here is modelled, as a non-global, non-Unicode `match`.
