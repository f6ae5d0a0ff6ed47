/**
 * The aspect loader: a registry of loader extensions bucketed by target, the
 * loading of one aspect (its class, then its methods, then its properties,
 * each point offered to the extensions of its target), and the incremental
 * reload that loads only the aspects defined in resources not yet loaded and
 * registers what they produce in the container.
 *
 * The functions before the class state what each step computes; the class
 * methods do it step by step, as the loader does, and are proved to compute
 * those functions.
 */
module AspectLoading {
  import opened Aop
  import opened Merging
  import opened LoaderExtension
  import opened Container

  type Loaders = map<Target, seq<Extension>>

  /** `$this->loaders[$target]`, where a missing bucket reads as empty. */
  function ExtensionsFor(loaders: Loaders, t: Target): seq<Extension>
  {
    if t in loaders then loaders[t] else []
  }

  /** How often `t` occurs in `targets`. */
  function Count(targets: seq<Target>, t: Target): nat
  {
    if |targets| == 0 then 0
    else Count(targets[..|targets| - 1], t) + (if targets[|targets| - 1] == t then 1 else 0)
  }

  /** `n` copies of one extension. */
  ghost function Copies(ext: Extension, n: nat): seq<Extension>
  {
    seq(n, _ => ext)
  }

  lemma CopiesGrow(ext: Extension, n: nat)
    ensures Copies(ext, n) + [ext] == Copies(ext, n + 1)
  {
  }

  /** Appending the extension to one more target's bucket keeps the buckets
      equal to the start plus one copy per occurrence among the targets so far. */
  lemma AppendToBucket(start: Loaders, loaders: Loaders, ext: Extension, prefix: seq<Target>, target: Target)
    requires forall t :: ExtensionsFor(loaders, t) == ExtensionsFor(start, t) + Copies(ext, Count(prefix, t))
    requires forall t :: t in loaders <==> t in start || t in prefix
    ensures var next := loaders[target := ExtensionsFor(loaders, target) + [ext]];
      && (forall t :: ExtensionsFor(next, t) == ExtensionsFor(start, t) + Copies(ext, Count(prefix + [target], t)))
      && (forall t :: t in next <==> t in start || t in prefix + [target])
  {
    assert (prefix + [target])[..|prefix|] == prefix;
    CopiesGrow(ext, Count(prefix, target));
  }

  /** getAnnotations: the annotations the reader gives for a class, method or
      property; any other reflection point is rejected. */
  function Annotations(point: Point): Result<seq<Annotation>>
  {
    match point
    case ClassPoint(m) => Ok(m.annotations)
    case MethodPoint(m) => Ok(m.annotations)
    case PropertyPoint(m) => Ok(m.annotations)
    case ForeignPoint(name) => Err(UnsupportedPoint(name))
  }

  /** What an annotation-kind extension contributes for one annotation:
      its load, only if it supports that annotation. */
  function AnnotationLoad(aspect: Aspect, point: Point, ext: Extension): Annotation -> Result<ItemMap>
  {
    (a: Annotation) => if ext.supports(aspect, point, Some(a)) then ext.load(aspect, point, Some(a)) else Ok(map[])
  }

  /** What one extension contributes for one point, dispatched on its kind. */
  function ExtensionItems(aspect: Aspect, point: Point, ext: Extension): Result<ItemMap>
  {
    match ext.kind
    case ReflectionKind =>
      if ext.supports(aspect, point, None) then ext.load(aspect, point, None) else Ok(map[])
    case AnnotationKind =>
      (match Annotations(point)
       case Err(e) => Err(e)
       case Ok(annotations) => MergeAll(annotations, AnnotationLoad(aspect, point, ext), map[]))
    case UnknownKind(name) => Err(UnsupportedLoaderKind(name))
  }

  function ExtensionLoad(aspect: Aspect, point: Point): Extension -> Result<ItemMap>
  {
    (ext: Extension) => ExtensionItems(aspect, point, ext)
  }

  /** loadFrom: the extensions' contributions for one point, merged first-wins
      in the order the extensions were registered. */
  function LoadFromSpec(aspect: Aspect, point: Point, exts: seq<Extension>): Result<ItemMap>
  {
    MergeAll(exts, ExtensionLoad(aspect, point), map[])
  }

  function PointLoad(aspect: Aspect, exts: seq<Extension>): Point -> Result<ItemMap>
  {
    (p: Point) => LoadFromSpec(aspect, p, exts)
  }

  /** One stage of load: merge loadFrom for each point into `acc`, or skip
      the stage when its extension list is empty. */
  function Stage(aspect: Aspect, points: seq<Point>, exts: seq<Extension>, acc: ItemMap): Result<ItemMap>
  {
    if |exts| == 0 then Ok(acc) else MergeAll(points, PointLoad(aspect, exts), acc)
  }

  /** The reflected methods, as points. */
  function MethodPoints(aspect: Aspect): seq<Point>
  {
    seq(|aspect.methods|, i requires 0 <= i < |aspect.methods| => MethodPoint(aspect.methods[i]))
  }

  /** The reflected properties, as points. */
  function PropertyPoints(aspect: Aspect): seq<Point>
  {
    seq(|aspect.properties|, i requires 0 <= i < |aspect.properties| => PropertyPoint(aspect.properties[i]))
  }

  /** load: the class stage, then the method stage, then the property stage,
      each merged first-wins into what the earlier stages produced. */
  function LoadSpec(loaders: Loaders, aspect: Aspect): Result<ItemMap>
  {
    match Stage(aspect, [ClassOf(aspect)], ExtensionsFor(loaders, ClassTarget), map[])
    case Err(e) => Err(e)
    case Ok(afterClass) =>
      match Stage(aspect, MethodPoints(aspect), ExtensionsFor(loaders, MethodTarget), afterClass)
      case Err(e) => Err(e)
      case Ok(afterMethods) =>
        Stage(aspect, PropertyPoints(aspect), ExtensionsFor(loaders, PropertyTarget), afterMethods)
  }

  /** array_diff($resources, $loaded): the resources not yet loaded, in order. */
  function ResourcesToLoad(resources: seq<string>, loaded: seq<string>): (r: seq<string>)
    ensures forall x :: x in r <==> x in resources && x !in loaded
    ensures |r| <= |resources|
  {
    if |resources| == 0 then []
    else
      var rest := ResourcesToLoad(resources[1..], loaded);
      if resources[0] in loaded then rest else [resources[0]] + rest
  }

  /** After the snapshot, nothing is left to load: a second reload with the
      same container resources returns at once. */
  lemma SnapshotLeavesNothingToLoad(resources: seq<string>)
    ensures ResourcesToLoad(resources, resources) == []
  {
    LoadedPrefixVanishes(resources, resources, []);
    assert resources + [] == resources;
  }

  /** Incrementality: when resources are added after a load, exactly the new
      ones that were not loaded before are to be loaded, in order. */
  lemma {:induction false} OnlyAddedResourcesToLoad(loaded: seq<string>, added: seq<string>)
    ensures ResourcesToLoad(loaded + added, loaded) == ResourcesToLoad(added, loaded)
    decreases |loaded|
  {
    LoadedPrefixVanishes(loaded, loaded, added);
  }

  lemma {:induction false} LoadedPrefixVanishes(prefix: seq<string>, loaded: seq<string>, added: seq<string>)
    requires forall x :: x in prefix ==> x in loaded
    ensures ResourcesToLoad(prefix + added, loaded) == ResourcesToLoad(added, loaded)
    decreases |prefix|
  {
    if |prefix| > 0 {
      assert (prefix + added)[0] == prefix[0];
      assert (prefix + added)[1..] == prefix[1..] + added;
      LoadedPrefixVanishes(prefix[1..], loaded, added);
    } else {
      assert prefix + added == added;
    }
  }

  /** array_diff works element by element: the difference of a concatenation
      is the concatenation of the differences. */
  lemma {:induction false} ResourcesToLoadConcat(a: seq<string>, b: seq<string>, loaded: seq<string>)
    ensures ResourcesToLoad(a + b, loaded) == ResourcesToLoad(a, loaded) + ResourcesToLoad(b, loaded)
    decreases |a|
  {
    if |a| == 0 {
      assert a + b == b;
    } else {
      assert (a + b)[0] == a[0];
      assert (a + b)[1..] == a[1..] + b;
      ResourcesToLoadConcat(a[1..], b, loaded);
    }
  }

  /** Already-loaded resources contribute nothing to the list to load,
      wherever they stand among the container's resources. */
  lemma LoadedResourcesVanish(front: seq<string>, mid: seq<string>, back: seq<string>, loaded: seq<string>)
    requires forall x :: x in mid ==> x in loaded
    ensures ResourcesToLoad(front + mid + back, loaded) == ResourcesToLoad(front + back, loaded)
  {
    ResourcesToLoadConcat(front + mid, back, loaded);
    ResourcesToLoadConcat(front, mid, loaded);
    ResourcesToLoadConcat(front, back, loaded);
    LoadedPrefixVanishes(mid, loaded, []);
    assert mid + [] == mid;
  }

  /** Resources that were never loaded are loaded as they are. */
  lemma {:induction false} FreshResourcesAllLoad(resources: seq<string>, loaded: seq<string>)
    requires forall x :: x in resources ==> x !in loaded
    ensures ResourcesToLoad(resources, loaded) == resources
    decreases |resources|
  {
    if |resources| > 0 {
      FreshResourcesAllLoad(resources[1..], loaded);
      assert [resources[0]] + resources[1..] == resources;
    }
  }

  /** What one tagged aspect contributes to a reload: its load if its file is
      among the resources to load, nothing otherwise. */
  function ChangedAspectLoad(loaders: Loaders, toLoad: seq<string>): Aspect -> Result<ItemMap>
  {
    (a: Aspect) => if a.fileName in toLoad then LoadSpec(loaders, a) else Ok(map[])
  }

  /** The items a reload collects from the tagged aspects, first-wins. */
  function LoadChangedSpec(loaders: Loaders, aspects: seq<Aspect>, toLoad: seq<string>): Result<ItemMap>
  {
    MergeAll(aspects, ChangedAspectLoad(loaders, toLoad), map[])
  }

  /** The loaded items that are pointcuts, by id. */
  function PointcutsOf(items: ItemMap): map<string, Pointcut>
  {
    map id | id in items && items[id].PointcutItem? :: items[id].pointcut
  }

  /** The loaded items that are advisors, by id. */
  function AdvisorsOf(items: ItemMap): map<string, Advisor>
  {
    map id | id in items && items[id].AdvisorItem? :: items[id].advisor
  }

  /** The routing of loaded items partitions them: no id lands in both
      indexes, and an id lands in one of them exactly when its item is a
      pointcut or an advisor; any other item is dropped. */
  lemma RoutingPartitionsItems(items: ItemMap)
    ensures PointcutsOf(items).Keys !! AdvisorsOf(items).Keys
    ensures forall id :: id in items ==>
      (id in PointcutsOf(items) || id in AdvisorsOf(items) <==> !items[id].OtherItem?)
    ensures PointcutsOf(items).Keys + AdvisorsOf(items).Keys <= items.Keys
  {
  }

  /** Routing one more id adds at most that id to one of the two indexes. */
  lemma RoutedGrow(items: ItemMap, pending: set<string>, id: string)
    requires id in pending && pending <= items.Keys
    ensures PointcutsOf(items - (pending - {id})) ==
      if items[id].PointcutItem? then PointcutsOf(items - pending)[id := items[id].pointcut]
      else PointcutsOf(items - pending)
    ensures AdvisorsOf(items - (pending - {id})) ==
      if items[id].AdvisorItem? then AdvisorsOf(items - pending)[id := items[id].advisor]
      else AdvisorsOf(items - pending)
  {
  }

  lemma UpdateUnion<V>(a: map<string, V>, b: map<string, V>, k: string, v: V)
    ensures (a + b)[k := v] == a + b[k := v]
  {
  }

  class AspectLoader {
    const container: AspectContainer
    var loaders: Loaders
    var loadedResources: seq<string>

    constructor (container: AspectContainer)
      ensures this.container == container
      ensures loaders == map[] && loadedResources == []
    {
      this.container := container;
      loaders := map[];
      loadedResources := [];
    }

    /** registerLoaderExtension: append the extension to the bucket of every
        target it declares (once per occurrence); other buckets stay as they were. */
    method RegisterLoaderExtension(ext: Extension)
      modifies this`loaders
      ensures forall t ::
        ExtensionsFor(loaders, t) == ExtensionsFor(old(loaders), t) + Copies(ext, Count(TargetArray(ext.target), t))
      ensures forall t :: t in loaders <==> t in old(loaders) || t in TargetArray(ext.target)
    {
      var targets := TargetArray(ext.target);
      var i := 0;
      while i < |targets|
        invariant 0 <= i <= |targets|
        invariant forall t ::
          ExtensionsFor(loaders, t) == ExtensionsFor(old(loaders), t) + Copies(ext, Count(targets[..i], t))
        invariant forall t :: t in loaders <==> t in old(loaders) || t in targets[..i]
      {
        var target := targets[i];
        assert targets[..i + 1] == targets[..i] + [target];
        AppendToBucket(old(loaders), loaders, ext, targets[..i], target);
        loaders := loaders[target := ExtensionsFor(loaders, target) + [ext]];
        i := i + 1;
      }
      assert targets[..i] == targets;
    }

    /** One stage of load: loadFrom for each point in turn, merged first-wins
        into `items`; the first failure stops the stage. */
    method LoadPoints(aspect: Aspect, points: seq<Point>, exts: seq<Extension>, items: ItemMap)
      returns (r: Result<ItemMap>)
      ensures r == MergeAll(points, PointLoad(aspect, exts), items)
    {
      var acc := items;
      var i := 0;
      while i < |points|
        invariant 0 <= i <= |points|
        invariant MergeAll(points, PointLoad(aspect, exts), items) ==
          MergeAll(points[i..], PointLoad(aspect, exts), acc)
      {
        var loaded := LoadFrom(aspect, points[i], exts);
        assert points[i..][0] == points[i] && points[i..][1..] == points[i + 1..];
        if loaded.Err? {
          return Err(loaded.error);
        }
        acc := FirstWins(acc, loaded.value);
        i := i + 1;
      }
      assert points[i..] == [];
      return Ok(acc);
    }

    /** load: the items the registered extensions produce for one aspect. */
    method Load(aspect: Aspect) returns (r: Result<ItemMap>)
      ensures r == LoadSpec(loaders, aspect)
    {
      var items: ItemMap := map[];

      var classExts := ExtensionsFor(loaders, ClassTarget);
      if |classExts| > 0 {
        var loaded := LoadFrom(aspect, ClassOf(aspect), classExts);
        assert [ClassOf(aspect)][1..] == [] && [ClassOf(aspect)][0] == ClassOf(aspect);
        assert PointLoad(aspect, classExts)(ClassOf(aspect)) == loaded;
        if loaded.Err? {
          return Err(loaded.error);
        }
        items := FirstWins(items, loaded.value);
        assert MergeAll([ClassOf(aspect)][1..], PointLoad(aspect, classExts), items) == Ok(items);
      }
      assert Stage(aspect, [ClassOf(aspect)], classExts, map[]) == Ok(items);
      ghost var afterClass := items;

      var methodExts := ExtensionsFor(loaders, MethodTarget);
      if |methodExts| > 0 {
        var loaded := LoadPoints(aspect, MethodPoints(aspect), methodExts, items);
        if loaded.Err? {
          return loaded;
        }
        items := loaded.value;
      }
      assert Stage(aspect, MethodPoints(aspect), methodExts, afterClass) == Ok(items);

      var propertyExts := ExtensionsFor(loaders, PropertyTarget);
      if |propertyExts| > 0 {
        r := LoadPoints(aspect, PropertyPoints(aspect), propertyExts, items);
        return;
      }
      return Ok(items);
    }

    /** loadAdvisorsAndPointcuts: load the aspects defined in resources not
        loaded yet, register what they produce, then remember the container's
        resources as loaded. Nothing changes when there is nothing new to
        load, or when a load fails. */
    method LoadAdvisorsAndPointcuts() returns (status: Status)
      modifies this`loadedResources, container
      ensures container.aspects == old(container.aspects) && container.tagged == old(container.tagged)
      ensures container.resources == old(container.resources)
      ensures status.Done? ==> ResourcesToLoad(container.resources, loadedResources) == []
      ensures
        var toLoad := ResourcesToLoad(old(container.resources), old(loadedResources));
        if |toLoad| == 0 then
          status == Done && unchanged(this) && unchanged(container)
        else
          match LoadChangedSpec(loaders, old(container.tagged), toLoad)
          case Err(e) =>
            status == Failed(e) && unchanged(this) && unchanged(container)
          case Ok(items) =>
            && status == Done
            && container.pointcuts == old(container.pointcuts) + PointcutsOf(items)
            && container.advisors == old(container.advisors) + AdvisorsOf(items)
            && loadedResources == container.resources
    {
      var containerResources := container.resources;
      var toLoad := ResourcesToLoad(containerResources, loadedResources);
      if |toLoad| == 0 {
        return Done;
      }

      var aspects := container.tagged;
      var items: ItemMap := map[];
      var i := 0;
      while i < |aspects|
        invariant 0 <= i <= |aspects|
        invariant unchanged(this) && unchanged(container)
        invariant LoadChangedSpec(loaders, aspects, toLoad) ==
          MergeAll(aspects[i..], ChangedAspectLoad(loaders, toLoad), items)
      {
        var aspect := aspects[i];
        assert aspects[i..][0] == aspect && aspects[i..][1..] == aspects[i + 1..];
        if aspect.fileName in toLoad {
          var loaded := Load(aspect);
          if loaded.Err? {
            return Failed(loaded.error);
          }
          items := FirstWins(items, loaded.value);
        } else {
          assert FirstWins(items, map[]) == items;
        }
        i := i + 1;
      }
      assert aspects[i..] == [];

      RegisterItems(items);
      loadedResources := containerResources;
      SnapshotLeavesNothingToLoad(loadedResources);
      return Done;
    }

    /** loadAndRegister: load one aspect and register what it produces. */
    method LoadAndRegister(aspect: Aspect) returns (status: Status)
      modifies container
      ensures container.aspects == old(container.aspects) && container.tagged == old(container.tagged)
      ensures container.resources == old(container.resources)
      ensures
        match LoadSpec(loaders, aspect)
        case Err(e) => status == Failed(e) && unchanged(container)
        case Ok(items) =>
          && status == Done
          && container.pointcuts == old(container.pointcuts) + PointcutsOf(items)
          && container.advisors == old(container.advisors) + AdvisorsOf(items)
    {
      var loaded := Load(aspect);
      if loaded.Err? {
        return Failed(loaded.error);
      }
      RegisterItems(loaded.value);
      return Done;
    }

    /** Route every loaded item by its type: pointcuts to the pointcut index,
        advisors to the advisor index; anything else is dropped. */
    method RegisterItems(items: ItemMap)
      modifies container
      ensures container.pointcuts == old(container.pointcuts) + PointcutsOf(items)
      ensures container.advisors == old(container.advisors) + AdvisorsOf(items)
      ensures container.aspects == old(container.aspects) && container.tagged == old(container.tagged)
      ensures container.resources == old(container.resources)
    {
      var pending := items.Keys;
      while pending != {}
        invariant pending <= items.Keys
        invariant container.pointcuts == old(container.pointcuts) + PointcutsOf(items - pending)
        invariant container.advisors == old(container.advisors) + AdvisorsOf(items - pending)
        invariant container.aspects == old(container.aspects) && container.tagged == old(container.tagged)
        invariant container.resources == old(container.resources)
        decreases pending
      {
        var id :| id in pending;
        RoutedGrow(items, pending, id);
        match items[id] {
          case PointcutItem(pointcut) =>
            UpdateUnion(old(container.pointcuts), PointcutsOf(items - pending), id, pointcut);
            container.RegisterPointcut(pointcut, id);
          case AdvisorItem(advisor) =>
            UpdateUnion(old(container.advisors), AdvisorsOf(items - pending), id, advisor);
            container.RegisterAdvisor(advisor, id);
          case OtherItem(_) =>
        }
        pending := pending - {id};
      }
      assert items - {} == items;
    }

    /** loadFrom: offer one reflection point to each extension in turn. */
    method LoadFrom(aspect: Aspect, point: Point, exts: seq<Extension>) returns (r: Result<ItemMap>)
      ensures r == LoadFromSpec(aspect, point, exts)
    {
      var items: ItemMap := map[];
      var i := 0;
      while i < |exts|
        invariant 0 <= i <= |exts|
        invariant LoadFromSpec(aspect, point, exts) == MergeAll(exts[i..], ExtensionLoad(aspect, point), items)
      {
        var ext := exts[i];
        assert exts[i..][0] == ext && exts[i..][1..] == exts[i + 1..];
        match ext.kind {
          case ReflectionKind =>
            if ext.supports(aspect, point, None) {
              var loaded := ext.load(aspect, point, None);
              if loaded.Err? {
                return Err(loaded.error);
              }
              items := FirstWins(items, loaded.value);
            } else {
              assert FirstWins(items, map[]) == items;
            }
          case AnnotationKind =>
            var annotations := Annotations(point);
            if annotations.Err? {
              return Err(annotations.error);
            }
            var anns := annotations.value;
            ghost var before := items;
            ghost var part: ItemMap := map[];
            assert FirstWins(before, part) == items;
            var j := 0;
            while j < |anns|
              invariant 0 <= j <= |anns|
              invariant ExtensionItems(aspect, point, ext) ==
                MergeAll(anns[j..], AnnotationLoad(aspect, point, ext), part)
              invariant items == FirstWins(before, part)
            {
              var annotation := anns[j];
              assert anns[j..][0] == annotation && anns[j..][1..] == anns[j + 1..];
              if ext.supports(aspect, point, Some(annotation)) {
                var loaded := ext.load(aspect, point, Some(annotation));
                if loaded.Err? {
                  return Err(loaded.error);
                }
                FirstWinsAssociative(before, part, loaded.value);
                items := FirstWins(items, loaded.value);
                part := FirstWins(part, loaded.value);
              } else {
                assert FirstWins(part, map[]) == part;
              }
              j := j + 1;
            }
            assert anns[j..] == [];
          case UnknownKind(name) =>
            return Err(UnsupportedLoaderKind(name));
        }
        i := i + 1;
      }
      assert exts[i..] == [];
      return Ok(items);
    }
  }
}
