/**
 * Properties of aspect loading, stated over the functions that the loader's
 * methods are proved to compute: first-wins merging at every level, the
 * supports gate, the rejection of unknown extension kinds, the stage order
 * of load, and the incremental reload that only looks at new resources.
 */
module LoaderProperties {
  import opened Aop
  import opened Merging
  import opened LoaderExtension
  import opened AspectLoading

  /** `ext` was asked whether it supports `point` (with annotation `o`) the way
      its kind dictates, and said yes. */
  ghost predicate Approved(aspect: Aspect, point: Point, ext: Extension, o: Option<Annotation>)
  {
    && ext.supports(aspect, point, o)
    && match ext.kind
       case ReflectionKind => o == None
       case AnnotationKind => o.Some? && !point.ForeignPoint? && o.value in point.member.annotations
       case UnknownKind(_) => false
  }

  /** First wins across extensions: whatever the first `k` extensions produced
      for a point is in loadFrom's result, unchanged. */
  lemma LoadFromFirstWins(aspect: Aspect, point: Point, exts: seq<Extension>, k: nat)
    requires k <= |exts|
    requires LoadFromSpec(aspect, point, exts).Ok?
    ensures LoadFromSpec(aspect, point, exts[..k]).Ok?
    ensures Extends(LoadFromSpec(aspect, point, exts[..k]).value, LoadFromSpec(aspect, point, exts).value)
  {
    MergeAllPrefixWins(exts, k, ExtensionLoad(aspect, point), map[]);
  }

  /** The supports gate: every item loadFrom returns was produced by a load
      call on an extension that had first approved that very point (and, for
      an annotation extension, that very annotation of the point). */
  lemma LoadedItemsAreSupported(aspect: Aspect, point: Point, exts: seq<Extension>, id: string)
    requires LoadFromSpec(aspect, point, exts).Ok?
    requires id in LoadFromSpec(aspect, point, exts).value
    ensures exists i, o ::
      && 0 <= i < |exts|
      && Approved(aspect, point, exts[i], o)
      && exts[i].load(aspect, point, o).Ok?
      && id in exts[i].load(aspect, point, o).value
      && LoadFromSpec(aspect, point, exts).value[id] == exts[i].load(aspect, point, o).value[id]
  {
    var r := LoadFromSpec(aspect, point, exts).value;
    MergeAllOrigin(exts, ExtensionLoad(aspect, point), map[], id);
    var i :| 0 <= i < |exts| && Yields(ExtensionLoad(aspect, point), exts[i], id) &&
      r[id] == ExtensionLoad(aspect, point)(exts[i]).value[id];
    var ext := exts[i];
    var m := ExtensionItems(aspect, point, ext).value;
    match ext.kind {
      case ReflectionKind =>
        assert Approved(aspect, point, ext, None);
      case AnnotationKind =>
        var anns := point.member.annotations;
        MergeAllOrigin(anns, AnnotationLoad(aspect, point, ext), map[], id);
        var k :| 0 <= k < |anns| && Yields(AnnotationLoad(aspect, point, ext), anns[k], id) &&
          m[id] == AnnotationLoad(aspect, point, ext)(anns[k]).value[id];
        assert Approved(aspect, point, ext, Some(anns[k]));
    }
  }

  /** An extension that supports nothing contributes nothing, and its load is
      never consulted: the result does not depend on it. */
  lemma UnsupportedExtensionIsInert(aspect: Aspect, point: Point, ext: Extension)
    requires ext.kind.ReflectionKind? || (ext.kind.AnnotationKind? && !point.ForeignPoint?)
    requires forall o :: !ext.supports(aspect, point, o)
    ensures ExtensionItems(aspect, point, ext) == Ok(map[])
  {
    if ext.kind.AnnotationKind? {
      var anns := point.member.annotations;
      forall k | 0 <= k < |anns| ensures AnnotationLoad(aspect, point, ext)(anns[k]) == Ok(map[]) {
        assert !ext.supports(aspect, point, Some(anns[k]));
      }
      MergeAllNothing(anns, AnnotationLoad(aspect, point, ext), map[]);
    }
  }

  /** An extension of an unknown kind makes loadFrom fail with
      UnsupportedLoaderKind, unless an earlier extension already failed. */
  lemma LoadFromRejectsUnknownKind(aspect: Aspect, point: Point, exts: seq<Extension>, i: nat)
    requires i < |exts| && exts[i].kind.UnknownKind?
    requires forall j :: 0 <= j < i ==> ExtensionItems(aspect, point, exts[j]).Ok?
    ensures LoadFromSpec(aspect, point, exts) == Err(UnsupportedLoaderKind(exts[i].kind.name))
  {
    var e := UnsupportedLoaderKind(exts[i].kind.name);
    assert ExtensionLoad(aspect, point)(exts[i]) == Err(e);
    forall j | 0 <= j < i ensures ExtensionLoad(aspect, point)(exts[j]).Ok? {
      assert ExtensionItems(aspect, point, exts[j]).Ok?;
    }
    MergeAllFirstError(exts, ExtensionLoad(aspect, point), map[], e);
  }

  /** An annotation extension offered a point that is not a class, method or
      property makes loadFrom fail with UnsupportedPoint, unless an earlier
      extension already failed. */
  lemma LoadFromRejectsForeignPoint(aspect: Aspect, point: Point, exts: seq<Extension>, i: nat)
    requires point.ForeignPoint?
    requires i < |exts| && exts[i].kind.AnnotationKind?
    requires forall j :: 0 <= j < i ==> ExtensionItems(aspect, point, exts[j]).Ok?
    ensures LoadFromSpec(aspect, point, exts) == Err(UnsupportedPoint(point.pointClass))
  {
    var e := UnsupportedPoint(point.pointClass);
    assert ExtensionLoad(aspect, point)(exts[i]) == Err(e);
    forall j | 0 <= j < i ensures ExtensionLoad(aspect, point)(exts[j]).Ok? {
      assert ExtensionItems(aspect, point, exts[j]).Ok?;
    }
    MergeAllFirstError(exts, ExtensionLoad(aspect, point), map[], e);
  }

  /** Stage order of load: what the class stage produced, and what the class
      and method stages produced together, survive unchanged in the result,
      so an id from the class wins over the same id from a method or a
      property, and one from a method wins over one from a property. */
  lemma LoadStageOrder(loaders: Loaders, aspect: Aspect)
    requires LoadSpec(loaders, aspect).Ok?
    ensures
      var afterClass := Stage(aspect, [ClassOf(aspect)], ExtensionsFor(loaders, ClassTarget), map[]);
      && afterClass.Ok?
      && var afterMethods := Stage(aspect, MethodPoints(aspect), ExtensionsFor(loaders, MethodTarget), afterClass.value);
      && afterMethods.Ok?
      && Extends(afterClass.value, afterMethods.value)
      && Extends(afterMethods.value, LoadSpec(loaders, aspect).value)
  {
    var classExts := ExtensionsFor(loaders, ClassTarget);
    var methodExts := ExtensionsFor(loaders, MethodTarget);
    var propertyExts := ExtensionsFor(loaders, PropertyTarget);
    var afterClass := Stage(aspect, [ClassOf(aspect)], classExts, map[]).value;
    var afterMethods := Stage(aspect, MethodPoints(aspect), methodExts, afterClass).value;
    if |methodExts| > 0 {
      MergeAllExtends(MethodPoints(aspect), PointLoad(aspect, methodExts), afterClass);
    }
    if |propertyExts| > 0 {
      MergeAllExtends(PropertyPoints(aspect), PointLoad(aspect, propertyExts), afterMethods);
    }
  }

  /** No aspect before the `i`-th one whose file is to be loaded yields `id`. */
  ghost predicate FirstToYield(loaders: Loaders, aspects: seq<Aspect>, toLoad: seq<string>, i: int, id: string)
    requires 0 <= i <= |aspects|
  {
    forall j :: 0 <= j < i && aspects[j].fileName in toLoad && LoadSpec(loaders, aspects[j]).Ok? ==>
      id !in LoadSpec(loaders, aspects[j]).value
  }

  /** The reload only reads aspects whose file is to be loaded: every item it
      collects comes from the load of such an aspect (the first one that
      produced that id), and every failure is the failure of such a load. */
  lemma ReloadReadsOnlyNewFiles(loaders: Loaders, aspects: seq<Aspect>, toLoad: seq<string>)
    ensures LoadChangedSpec(loaders, aspects, toLoad).Ok? ==>
      forall id :: id in LoadChangedSpec(loaders, aspects, toLoad).value ==>
        exists i :: 0 <= i < |aspects| && aspects[i].fileName in toLoad &&
          LoadSpec(loaders, aspects[i]).Ok? && id in LoadSpec(loaders, aspects[i]).value &&
          LoadChangedSpec(loaders, aspects, toLoad).value[id] == LoadSpec(loaders, aspects[i]).value[id] &&
          FirstToYield(loaders, aspects, toLoad, i, id)
    ensures LoadChangedSpec(loaders, aspects, toLoad).Err? ==>
      exists i :: 0 <= i < |aspects| && aspects[i].fileName in toLoad &&
        LoadSpec(loaders, aspects[i]) == LoadChangedSpec(loaders, aspects, toLoad)
  {
    var produce := ChangedAspectLoad(loaders, toLoad);
    var result := LoadChangedSpec(loaders, aspects, toLoad);
    if result.Ok? {
      forall id | id in result.value
        ensures
          exists i :: 0 <= i < |aspects| && aspects[i].fileName in toLoad &&
            LoadSpec(loaders, aspects[i]).Ok? && id in LoadSpec(loaders, aspects[i]).value &&
            result.value[id] == LoadSpec(loaders, aspects[i]).value[id] &&
            FirstToYield(loaders, aspects, toLoad, i, id)
      {
        MergeAllOrigin(aspects, produce, map[], id);
        var i :| 0 <= i < |aspects| && Yields(produce, aspects[i], id) &&
          result.value[id] == produce(aspects[i]).value[id] &&
          (forall j :: 0 <= j < i ==> !Yields(produce, aspects[j], id));
        assert aspects[i].fileName in toLoad;
        forall j | 0 <= j < i && aspects[j].fileName in toLoad && LoadSpec(loaders, aspects[j]).Ok?
          ensures id !in LoadSpec(loaders, aspects[j]).value
        {
          assert !Yields(produce, aspects[j], id);
        }
      }
    } else {
      MergeAllFirstError(aspects, produce, map[], result.error);
      var i :| 0 <= i < |aspects| && produce(aspects[i]) == result;
      assert aspects[i].fileName in toLoad;
    }
  }
}
