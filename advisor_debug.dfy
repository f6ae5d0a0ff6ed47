/**
 * The logic of the advisor debug command: the filter that decides which
 * files of the application are analysed, and the lookup of an advisor that
 * falls back to loading its aspect when the container does not know it yet.
 */
module AdvisorDebug {
  import opened Aop
  import opened Container
  import opened AspectLoading

  /** A file as the directory walk yields it: its extension and its real path. */
  datatype FileInfo = FileInfo(extension: string, realPath: string)

  /** The kernel options the filter reads. Paths are already resolved to
      their real paths. */
  datatype KernelOptions = KernelOptions(includePaths: seq<string>, excludePaths: seq<string>, cacheDir: string)

  /** What the filter closure captures. */
  datatype FileFilter = FileFilter(includePaths: seq<string>, excludePaths: seq<string>)

  /** `strpos($path, $prefix) === 0`: the path starts with the prefix, as text. */
  predicate StartsWith(path: string, prefix: string)
  {
    |prefix| <= |path| && path[..|prefix|] == prefix
  }

  ghost predicate UnderSome(path: string, prefixes: seq<string>)
  {
    exists p :: p in prefixes && StartsWith(path, p)
  }

  /** The files the filter lets through: PHP files that lie under some include
      path (when any are given) and under no exclude path. */
  ghost predicate Accepts(filter: FileFilter, file: FileInfo)
  {
    && file.extension == "php"
    && (|filter.includePaths| == 0 || UnderSome(file.realPath, filter.includePaths))
    && !UnderSome(file.realPath, filter.excludePaths)
  }

  /** getFileFilter: capture the include paths, and the exclude paths with the
      cache directory appended. */
  function GetFileFilter(options: KernelOptions): (filter: FileFilter)
    ensures filter.includePaths == options.includePaths
    ensures forall p :: p in filter.excludePaths <==> p in options.excludePaths || p == options.cacheDir
    ensures forall file: FileInfo :: StartsWith(file.realPath, options.cacheDir) ==> !Accepts(filter, file)
  {
    var excluded := options.excludePaths + [options.cacheDir];
    assert excluded[|excluded| - 1] == options.cacheDir;
    FileFilter(options.includePaths, excluded)
  }

  /** The filter closure: reject a non-PHP file, then search the include paths
      for one the file lies under, then reject it if it lies under any
      exclude path. */
  method Filter(filter: FileFilter, file: FileInfo) returns (accepted: bool)
    ensures accepted <==> Accepts(filter, file)
  {
    if file.extension != "php" {
      return false;
    }

    if |filter.includePaths| > 0 {
      var found := false;
      var i := 0;
      while i < |filter.includePaths|
        invariant 0 <= i <= |filter.includePaths|
        invariant !found
        invariant forall k :: 0 <= k < i ==> !StartsWith(file.realPath, filter.includePaths[k])
      {
        if StartsWith(file.realPath, filter.includePaths[i]) {
          found := true;
          break;
        }
        i := i + 1;
      }
      if !found {
        return false;
      }
    }

    var j := 0;
    while j < |filter.excludePaths|
      invariant 0 <= j <= |filter.excludePaths|
      invariant forall k :: 0 <= k < j ==> !StartsWith(file.realPath, filter.excludePaths[k])
    {
      if StartsWith(file.realPath, filter.excludePaths[j]) {
        return false;
      }
      j := j + 1;
    }
    return true;
  }

  /** `->` occurs in `s` at position `i`. */
  predicate ArrowAt(s: string, i: int)
  {
    0 <= i && i + 1 < |s| && s[i] == '-' && s[i + 1] == '>'
  }

  predicate HasArrow(s: string)
  {
    exists i :: 0 <= i < |s| && ArrowAt(s, i)
  }

  /** `list($aspect) = explode('->', $advisorId)`: the text before the first
      `->`, or the whole id when there is none. */
  function AspectIdOf(advisorId: string): (aspectId: string)
    ensures aspectId <= advisorId
    ensures !HasArrow(aspectId)
    ensures aspectId == advisorId || ArrowAt(advisorId, |aspectId|)
  {
    if |advisorId| < 2 then advisorId
    else if ArrowAt(advisorId, 0) then ""
    else
      var rest := AspectIdOf(advisorId[1..]);
      var aspectId := [advisorId[0]] + rest;
      assert !HasArrow(aspectId) by {
        forall i | 0 <= i < |aspectId| ensures !ArrowAt(aspectId, i) {
          if i > 0 {
            assert ArrowAt(aspectId, i) == ArrowAt(rest, i - 1);
          } else if |rest| > 0 {
            assert rest[0] == advisorId[1];
          }
        }
      }
      aspectId
  }

  /** Advisor ids are `<aspect>-><member>`: splitting one gives back the
      aspect, whatever the member name. */
  lemma {:induction false} AspectIdOfAdvisorId(aspectId: string, member: string)
    requires !HasArrow(aspectId)
    ensures AspectIdOf(aspectId + "->" + member) == aspectId
    decreases |aspectId|
  {
    var advisorId := aspectId + "->" + member;
    if |aspectId| > 0 {
      assert !ArrowAt(advisorId, 0) by {
        if |aspectId| > 1 {
          assert !ArrowAt(aspectId, 0);
        }
      }
      var rest := aspectId[1..];
      assert !HasArrow(rest) by {
        forall i | 0 <= i < |rest| ensures !ArrowAt(rest, i) {
          assert !ArrowAt(aspectId, i + 1);
        }
      }
      assert advisorId[1..] == rest + "->" + member;
      AspectIdOfAdvisorId(rest, member);
      assert [advisorId[0]] + rest == aspectId;
    } else {
      assert ArrowAt(advisorId, 0);
    }
  }

  /** loadAdvisor: the container's advisor when it is known; otherwise load and
      register the aspect named by the id's prefix and look the advisor up
      once more, letting a second miss fail. */
  method LoadAdvisor(advisorId: string, container: AspectContainer, loader: AspectLoader) returns (r: Result<Advisor>)
    requires loader.container == container
    modifies container
    ensures container.aspects == old(container.aspects)
    ensures container.tagged == old(container.tagged) && container.resources == old(container.resources)
    ensures advisorId in old(container.advisors) ==>
      r == Ok(old(container.advisors)[advisorId]) && unchanged(container)
    ensures advisorId !in old(container.advisors) ==>
      var aspectId := AspectIdOf(advisorId);
      if aspectId !in old(container.aspects) then
        r == Err(NotFound(aspectId)) && unchanged(container)
      else
        match LoadSpec(loader.loaders, old(container.aspects)[aspectId])
        case Err(e) => r == Err(e) && unchanged(container)
        case Ok(items) =>
          && container.pointcuts == old(container.pointcuts) + PointcutsOf(items)
          && container.advisors == old(container.advisors) + AdvisorsOf(items)
          && r == (if advisorId in AdvisorsOf(items) then Ok(AdvisorsOf(items)[advisorId])
                   else Err(NotFound(advisorId)))
  {
    var found := container.GetAdvisor(advisorId);
    if found.Ok? {
      return found;
    }
    var aspectId := AspectIdOf(advisorId);
    var aspect := container.GetAspect(aspectId);
    if aspect.Err? {
      return Err(aspect.error);
    }
    var status := loader.LoadAndRegister(aspect.value);
    if status.Failed? {
      return Err(status.error);
    }
    r := container.GetAdvisor(advisorId);
  }
}
