/** The change paths reported for one archive row. */
module ObservedPaths {
  import opened Wrappers
  import opened Text
  import opened ArchiveChanges
  import opened JsonEquality
  import opened JsonDiff

  datatype DiffError = InvalidJson

  /** A JSON reader: None stands for a parse error. */
  type Parser = string -> Option<Json>

  function Render(path: Path): string {
    if path == [] then "" else
      (match path[0] case Name(name) => "." + name case Index(i) => "[" + Digits(i) + "]") + Render(path[1..])
  }

  /** A path is written step by step: a name behind a dot, an index in brackets. */
  lemma {:induction false} RenderStep(path: Path, step: Step)
    ensures Render(path + [step]) ==
      Render(path) + match step { case Name(name) => "." + name case Index(i) => "[" + Digits(i) + "]" }
    decreases |path|
  {
    var all := path + [step];
    if path == [] {
      assert all[1..] == [];
    } else {
      assert all[1..] == path[1..] + [step];
      RenderStep(path[1..], step);
    }
  }

  predicate Missing(text: Option<string>) {
    text.None? || IsBlank(text.value)
  }

  function Document(parse: Parser, text: Option<string>): Result<Option<Json>, DiffError> {
    if Missing(text) then Success(None)
    else if parse(text.value).None? then Failure(InvalidJson)
    else Success(parse(text.value))
  }

  function Rendered(prefix: string, paths: set<Path>): set<string> {
    set p | p in paths :: prefix + Render(p)
  }

  function ChangedIn(dec: Decimal, parse: Parser, prefix: string, before: Option<string>, after: Option<string>,
                     nested: bool): Result<set<string>, DiffError> {
    match (Document(parse, before), Document(parse, after))
    case (Success(b), Success(a)) =>
      Success(Rendered(prefix, if nested then Diff(dec, b, a, []) else if JsonEquals(dec, b, a) then {} else {[]}))
    case _ => Failure(InvalidJson)
  }

  function Observed(dec: Decimal, parse: Parser, row: ArchiveRow): Result<set<string>, DiffError> {
    if row.deleted then Success(if row.beforeCode.None? then {} else {"$deleted"}) else
      var attributes := ChangedIn(dec, parse, "attributes", row.beforeAttributes, row.attributes, true);
      var features := ChangedIn(dec, parse, "featureBindings", row.beforeFeatures, row.features, false);
      var information := ChangedIn(dec, parse, "informationBindings", row.beforeInformation, row.information, false);
      if attributes.Failure? || features.Failure? || information.Failure? then Failure(InvalidJson) else
        var paths := attributes.value + features.value + information.value
          + (if row.beforeCode.Some? && row.beforeCode.value != row.code then {"$code"} else {})
          + (if row.geometryChanged then {"$geometry"} else {})
          + (if row.beforeScale != row.scale then {"$compilationscale"} else {});
        Success(if row.beforeCode.None? && paths == {} then {"$feature"} else paths)
  }

  method AddChangedJsonPaths(dec: Decimal, parse: Parser, prefix: string, before: Option<string>,
                             after: Option<string>, nested: bool)
    returns (r: Result<set<string>, DiffError>)
    ensures r == ChangedIn(dec, parse, prefix, before, after, nested)
  {
    if Missing(before) && Missing(after) {
      assert JsonEquals(dec, None, None);
      assert Rendered(prefix, {}) == {};
      return Success({});
    }
    var b, a := Document(parse, before), Document(parse, after);
    if b.Failure? || a.Failure? {
      return Failure(InvalidJson);
    }
    var changed := new ChangedPaths();
    changed.AddChanged(dec, nested, b.value, a.value, []);
    assert changed.paths == if nested then Diff(dec, b.value, a.value, []) else if JsonEquals(dec, b.value, a.value)
      then {} else {[]};
    return Success(Rendered(prefix, changed.paths));
  }

  method InOrdinalOrder(paths: set<string>) returns (ordered: seq<string>)
    ensures Ascending(ordered) && forall p :: p in ordered <==> p in paths
  {
    ordered := [];
    var left := paths;
    while left != {}
      invariant left <= paths && Ascending(ordered) && forall p :: p in ordered <==> p in paths && p !in left
      decreases left
    {
      var p :| p in left;
      left := left - {p};
      ordered := InsertAscending(p, ordered);
    }
  }

  /** The observed paths, once each, in ordinal order. */
  method GetObservedAttributePaths(dec: Decimal, parse: Parser, row: ArchiveRow)
      returns (r: Result<seq<string>, DiffError>)
    ensures r.Success? <==> Observed(dec, parse, row).Success?
    ensures r.Success? ==> Ascending(r.value) && forall p :: p in r.value <==> p in Observed(dec, parse, row).value
  {
    if row.deleted {
      return Success(if row.beforeCode.None? then [] else ["$deleted"]);
    }
    var attributes := AddChangedJsonPaths(dec, parse, "attributes", row.beforeAttributes, row.attributes, true);
    var features := AddChangedJsonPaths(dec, parse, "featureBindings", row.beforeFeatures, row.features, false);
    var information :=
      AddChangedJsonPaths(dec, parse, "informationBindings", row.beforeInformation, row.information, false);
    if attributes.Failure? || features.Failure? || information.Failure? {
      return Failure(InvalidJson);
    }
    var paths := attributes.value + features.value + information.value;
    if row.beforeCode.Some? && row.beforeCode.value != row.code {
      paths := paths + {"$code"};
    }
    if row.geometryChanged {
      paths := paths + {"$geometry"};
    }
    if row.beforeScale != row.scale {
      paths := paths + {"$compilationscale"};
    }
    if row.beforeCode.None? && paths == {} {
      paths := paths + {"$feature"};
    }
    var ordered := InOrdinalOrder(paths);
    return Success(ordered);
  }

  /** Nothing but white space, or nothing at all, is no document; other texts are what the reader makes of them. */
  lemma DocumentMeans(parse: Parser, text: string)
    ensures Document(parse, None) == Success(None)
    ensures Document(parse, Some(text)) ==
            if forall c | c in text :: IsWhite(c) then Success(None)
            else match parse(text) { case None => Failure(InvalidJson) case Some(x) => Success(Some(x)) }
  {
    if !IsBlank(text) {
      var i :| 0 <= i < |text| && !IsWhite(text[i]);
      assert text[i] in text;
    }
  }

  ghost predicate BothRead(parse: Parser, before: Option<string>, after: Option<string>) {
    && Document(parse, before).Success? && Document(parse, after).Success?
    && UniqueOpt(Document(parse, before).value) && UniqueOpt(Document(parse, after).value)
  }

  lemma ChangedIsInvalid(dec: Decimal, parse: Parser, prefix: string, before: Option<string>, after: Option<string>,
                         nested: bool)
    ensures ChangedIn(dec, parse, prefix, before, after, nested).Failure? <==>
            Document(parse, before).Failure? || Document(parse, after).Failure?
  {
  }

  /** A nested pair of texts reports every path of the difference, in writing. */
  lemma NestedChangesMean(dec: Decimal, parse: Parser, prefix: string, before: Option<string>, after: Option<string>,
                          p: string)
    requires BothRead(parse, before, after)
    ensures var b, a := Document(parse, before).value, Document(parse, after).value;
            p in ChangedIn(dec, parse, prefix, before, after, true).value <==>
            exists path :: IsReported(dec, b, a, path) && p == prefix + Render(path)
  {
    var b, a := Document(parse, before).value, Document(parse, after).value;
    var paths := Diff(dec, b, a, []);
    assert ChangedIn(dec, parse, prefix, before, after, true).value == Rendered(prefix, paths);
    forall path: Path ensures path in paths <==> IsReported(dec, b, a, path) {
      DiffReportsExactly(dec, b, a, [], path);
      assert path[0..] == path;
    }
    if path: Path :| IsReported(dec, b, a, path) && p == prefix + Render(path) {
      assert path in paths;
      RenderedHas(prefix, paths, path);
    }
    if p in Rendered(prefix, paths) {
      var path :| path in paths && p == prefix + Render(path);
      assert IsReported(dec, b, a, path);
    }
  }

  lemma RenderedHas(prefix: string, paths: set<Path>, path: Path)
    requires path in paths
    ensures prefix + Render(path) in Rendered(prefix, paths)
  {
  }

  /** A pair of texts that is compared as a whole reports its prefix, exactly when the two disagree. */
  lemma WholeChangesMean(dec: Decimal, parse: Parser, prefix: string, before: Option<string>, after: Option<string>,
                         p: string)
    requires BothRead(parse, before, after)
    ensures p in ChangedIn(dec, parse, prefix, before, after, false).value <==>
            p == prefix && !Agree(dec, Document(parse, before).value, Document(parse, after).value)
  {
    var b, a := Document(parse, before).value, Document(parse, after).value;
    EqualMeansAgree(dec, b, a);
    var empty: Path := [];
    assert prefix + Render(empty) == prefix;
    var paths: set<Path> := if JsonEquals(dec, b, a) then {} else {empty};
    assert Rendered(prefix, paths) == if JsonEquals(dec, b, a) then {} else {prefix} by {
      if !JsonEquals(dec, b, a) {
        assert empty in paths;
      }
    }
  }

  predicate Readable(parse: Parser, text: Option<string>) {
    var doc := Document(parse, text);
    doc.Success? && UniqueOpt(doc.value) && NoEmptyOpt(doc.value)
  }

  predicate SameDocument(dec: Decimal, parse: Parser, a: Option<string>, b: Option<string>)
    requires Document(parse, a).Success? && Document(parse, b).Success?
  {
    JsonEquals(dec, Document(parse, a).value, Document(parse, b).value)
  }

  lemma NothingChangedIff(dec: Decimal, parse: Parser, prefix: string, before: Option<string>, after: Option<string>,
                          nested: bool)
    requires Readable(parse, before) && Readable(parse, after)
    ensures ChangedIn(dec, parse, prefix, before, after, nested) == Success({}) <==>
      SameDocument(dec, parse, before, after)
    ensures ChangedIn(dec, parse, prefix, before, after, nested).Success?
  {
    var b, a := Document(parse, before).value, Document(parse, after).value;
    DiffIsExact(dec, b, a, []);
    var paths := if nested then Diff(dec, b, a, []) else if JsonEquals(dec, b, a) then {} else {[]};
    if paths != {} {
      var p :| p in paths;
      assert prefix + Render(p) in Rendered(prefix, paths);
    } else {
      assert Rendered(prefix, paths) == {};
    }
  }

  /**
   * On readable documents without empty objects: a live row reports nothing exactly when it existed before and no part
   * of it changed, and a deleted row reports nothing exactly when it did not exist before.
   */
  lemma NothingObservedIff(dec: Decimal, parse: Parser, row: ArchiveRow)
    requires Readable(parse, row.beforeAttributes) && Readable(parse, row.attributes)
    requires Readable(parse, row.beforeFeatures) && Readable(parse, row.features)
    requires Readable(parse, row.beforeInformation) && Readable(parse, row.information)
    ensures Observed(dec, parse, row) == Success({}) <==>
      if row.deleted then row.beforeCode.None? else
        && row.beforeCode == Some(row.code) && !row.geometryChanged && row.beforeScale == row.scale
        && SameDocument(dec, parse, row.beforeAttributes, row.attributes)
        && SameDocument(dec, parse, row.beforeFeatures, row.features)
        && SameDocument(dec, parse, row.beforeInformation, row.information)
  {
    if row.deleted {
      assert "$deleted" in {"$deleted"};
    } else {
      NothingChangedIff(dec, parse, "attributes", row.beforeAttributes, row.attributes, true);
      NothingChangedIff(dec, parse, "featureBindings", row.beforeFeatures, row.features, false);
      NothingChangedIff(dec, parse, "informationBindings", row.beforeInformation, row.information, false);
      ObservedParts(dec, parse, row);
    }
  }

  lemma ObservedParts(dec: Decimal, parse: Parser, row: ArchiveRow)
    requires !row.deleted && Observed(dec, parse, row).Success?
    ensures Observed(dec, parse, row).value == {} <==>
      && row.beforeCode == Some(row.code) && !row.geometryChanged && row.beforeScale == row.scale
      && ChangedIn(dec, parse, "attributes", row.beforeAttributes, row.attributes, true) == Success({})
      && ChangedIn(dec, parse, "featureBindings", row.beforeFeatures, row.features, false) == Success({})
      && ChangedIn(dec, parse, "informationBindings", row.beforeInformation, row.information, false) == Success({})
  {
    var attributes := ChangedIn(dec, parse, "attributes", row.beforeAttributes, row.attributes, true).value;
    var features := ChangedIn(dec, parse, "featureBindings", row.beforeFeatures, row.features, false).value;
    var information :=
      ChangedIn(dec, parse, "informationBindings", row.beforeInformation, row.information, false).value;
    var code := if row.beforeCode.Some? && row.beforeCode.value != row.code then {"$code"} else {};
    var geometry := if row.geometryChanged then {"$geometry"} else {};
    var scale := if row.beforeScale != row.scale then {"$compilationscale"} else {};
    var paths := attributes + features + information + code + geometry + scale;
    assert Observed(dec, parse, row).value == if row.beforeCode.None? && paths == {} then {"$feature"} else paths;
    assert forall p | p in attributes + features + information + code + geometry + scale :: p in paths;
    assert paths == {} <==>
      attributes == {} && features == {} && information == {} && code == {} && geometry == {} && scale == {} by {
      assert attributes <= paths && features <= paths && information <= paths && code <= paths && geometry <= paths
        && scale <= paths;
    }
    assert "$feature" in {"$feature"} && "$code" in {"$code"} && "$geometry" in {"$geometry"}
      && "$compilationscale" in {"$compilationscale"};
  }
}
