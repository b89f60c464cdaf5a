/**
 * `getExportMetadata`: classifies one export by the `$$type` marker property
 * of the shape of its type.
 */
module Classifier {
  import opened Options
  import opened TokenPattern
  import opened ProjectModel

  /** The name of the marker property. */
  const MarkerName: string := "$$type"
  /** The export name of a default export. */
  const DefaultExportName: string := "default"
  /** The export path of the package root. */
  const RootPath: string := "."

  /** A package export record: its classification tag (the `type` field), and its optional `name` and `path`. */
  datatype PackageExport = PackageExport(tag: string, name: Option<string>, path: Option<string>)

  /**
   * The export-type schema's `safeParse`, for a schema that accepts exactly
   * the strings of `recognised`: it fails on an absent token and on a token
   * outside the set, and on success its data is the token unchanged.
   */
  function Validate(recognised: set<string>, token: Option<string>): (r: Option<string>)
    ensures r.Some? <==> token.Some? && token.value in recognised
    ensures r.Some? ==> r.value == token.value
  {
    if token.Some? && token.value in recognised then token else None
  }

  /** `getTargetType() ?? type`: the type whose properties are searched. */
  function Shape(t: Type): (s: Type)
    ensures t.target.Some? ==> s == t.target.value
    ensures t.target.None? ==> s == t
  {
    match t.target
    case Some(g) => g
    case None => t
  }

  /**
   * The tag a property yields: present only for a property named `$$type`
   * whose value declaration text holds a token the schema accepts.
   */
  function MarkerTag(recognised: set<string>, p: Property): (r: Option<string>)
    ensures r.Some? <==>
              (p.name == MarkerName && p.valueDeclarationText.Some? &&
               ExtractToken(p.valueDeclarationText.value).Some? &&
               ExtractToken(p.valueDeclarationText.value).value in recognised)
    ensures r.Some? ==> r == ExtractToken(p.valueDeclarationText.value)
  {
    if p.name != MarkerName then None
    else
      var token := if p.valueDeclarationText.Some? then ExtractToken(p.valueDeclarationText.value) else None;
      Validate(recognised, token)
  }

  /** Property `i` is the first one of `props` that yields a tag. */
  predicate IsFirstTagged(recognised: set<string>, props: seq<Property>, i: int) {
    0 <= i < |props| && MarkerTag(recognised, props[i]).Some? &&
    forall j :: 0 <= j < i ==> MarkerTag(recognised, props[j]).None?
  }

  /**
   * The position of the first property that yields a tag.  The search does
   * not stop at a `$$type` property whose token fails validation.
   */
  function FirstTagged(recognised: set<string>, props: seq<Property>): (r: Option<nat>)
    ensures r.None? <==> forall i :: 0 <= i < |props| ==> MarkerTag(recognised, props[i]).None?
    ensures r.Some? ==> IsFirstTagged(recognised, props, r.value)
    decreases |props|
  {
    if |props| == 0 then None
    else if MarkerTag(recognised, props[0]).Some? then Some(0)
    else
      match FirstTagged(recognised, props[1..])
      case Some(i) => Some(i + 1)
      case None => None
  }

  /** The record built from a validated tag: `name` unless the export is the default one, `path` unless it is the root. */
  function MakeExport(tag: string, exportPath: string, exportName: string): (e: PackageExport)
    ensures e.tag == tag
    ensures e.name.None? <==> exportName == DefaultExportName
    ensures e.name.Some? ==> e.name.value == exportName
    ensures e.path.None? <==> exportPath == RootPath
    ensures e.path.Some? ==> e.path.value == exportPath
  {
    PackageExport(tag,
      if exportName != DefaultExportName then Some(exportName) else None,
      if exportPath != RootPath then Some(exportPath) else None)
  }

  /** The classification of one export, as a pure function of its path, name and type. */
  function Classify(recognised: set<string>, exportPath: string, exportName: string, exportType: Type): (r: Option<PackageExport>)
    ensures r.None? <==> forall i :: 0 <= i < |Shape(exportType).properties| ==> MarkerTag(recognised, Shape(exportType).properties[i]).None?
    ensures r.Some? ==> exists i :: IsFirstTagged(recognised, Shape(exportType).properties, i) &&
                                     r.value == MakeExport(MarkerTag(recognised, Shape(exportType).properties[i]).value, exportPath, exportName)
    ensures r.Some? ==> r.value.tag in recognised && IsMarkerToken(r.value.tag)
  {
    var props := Shape(exportType).properties;
    match FirstTagged(recognised, props)
    case Some(i) => Some(MakeExport(MarkerTag(recognised, props[i]).value, exportPath, exportName))
    case None => None
  }

  /** The first tagged property is unique, so the search finds exactly it. */
  lemma FirstTaggedUnique(recognised: set<string>, props: seq<Property>, i: int)
    requires IsFirstTagged(recognised, props, i)
    ensures FirstTagged(recognised, props) == Some(i)
  {
  }

  /** Conversely, the first property that yields a tag decides the record, whatever follows it. */
  lemma ClassifyPicksFirstTagged(recognised: set<string>, exportPath: string, exportName: string, exportType: Type, i: int)
    requires IsFirstTagged(recognised, Shape(exportType).properties, i)
    ensures Classify(recognised, exportPath, exportName, exportType) ==
            Some(MakeExport(MarkerTag(recognised, Shape(exportType).properties[i]).value, exportPath, exportName))
  {
    FirstTaggedUnique(recognised, Shape(exportType).properties, i);
  }

  /** The scope itself holds no hyphen. */
  lemma ScopeHasNoHyphen()
    ensures forall k :: 0 <= k < |Scope| ==> Scope[k] != '-'
  {
  }

  /**
   * Since `\w` excludes `-`, no record ever carries a tag with a hyphen, even
   * when the recognised set holds one.
   */
  lemma NoHyphenatedTag(recognised: set<string>, exportPath: string, exportName: string, exportType: Type)
    ensures Classify(recognised, exportPath, exportName, exportType).Some? ==>
            '-' !in Classify(recognised, exportPath, exportName, exportType).value.tag
  {
    var r := Classify(recognised, exportPath, exportName, exportType);
    if r.Some? {
      var t := r.value.tag;
      forall k | 0 <= k < |t|
        ensures t[k] != '-'
      {
        if k < |Scope| {
          ScopeHasNoHyphen();
          assert t[k] == t[..|Scope|][k] == Scope[k];
        } else {
          assert IsWordChar(t[k]);
        }
      }
    }
  }

  /** `getExportMetadata` as written: a loop over the shape's properties that returns at the first validated marker. */
  method GetExportMetadata(recognised: set<string>, exportPath: string, exportName: string, exportType: Type)
    returns (r: Option<PackageExport>)
    ensures r == Classify(recognised, exportPath, exportName, exportType)
  {
    var props := Shape(exportType).properties;
    for i := 0 to |props|
      invariant forall j :: 0 <= j < i ==> MarkerTag(recognised, props[j]).None?
    {
      var property := props[i];
      if property.name == MarkerName {
        var token := if property.valueDeclarationText.Some? then ExtractToken(property.valueDeclarationText.value) else None;
        var validated := Validate(recognised, token);
        if validated.Some? {
          ClassifyPicksFirstTagged(recognised, exportPath, exportName, exportType, i);
          return Some(MakeExport(validated.value, exportPath, exportName));
        }
      }
    }
    return None;
  }
}
