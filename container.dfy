/**
 * The aspect container as the loader uses it: aspects by id and under the
 * tag "aspect", pointcuts and advisors by id, and the list of resources
 * (files) that define the registered aspects. Its internals are not part of
 * this model; lookups on a missing id fail, registration overwrites by id.
 */
module Container {
  import opened Aop

  class AspectContainer {
    var aspects: map<string, Aspect>
    var tagged: seq<Aspect>            // getByTag('aspect'), in registration order
    var pointcuts: map<string, Pointcut>
    var advisors: map<string, Advisor>
    var resources: seq<string>

    constructor (aspects: map<string, Aspect>, tagged: seq<Aspect>, resources: seq<string>)
      ensures this.aspects == aspects && this.tagged == tagged && this.resources == resources
      ensures pointcuts == map[] && advisors == map[]
    {
      this.aspects := aspects;
      this.tagged := tagged;
      this.resources := resources;
      pointcuts := map[];
      advisors := map[];
    }

    /** getAspect: the aspect, or NotFound for an unknown id. */
    function GetAspect(id: string): Result<Aspect>
      reads this
    {
      if id in aspects then Ok(aspects[id]) else Err(NotFound(id))
    }

    /** getAdvisor: the advisor, or NotFound for an unknown id. */
    function GetAdvisor(id: string): Result<Advisor>
      reads this
    {
      if id in advisors then Ok(advisors[id]) else Err(NotFound(id))
    }

    method RegisterPointcut(pointcut: Pointcut, id: string)
      modifies this
      ensures pointcuts == old(pointcuts)[id := pointcut]
      ensures advisors == old(advisors) && aspects == old(aspects)
      ensures tagged == old(tagged) && resources == old(resources)
    {
      pointcuts := pointcuts[id := pointcut];
    }

    /** registerAdvisor: afterwards getAdvisor finds this advisor under `id`,
        and every other id looks up exactly as before. */
    method RegisterAdvisor(advisor: Advisor, id: string)
      modifies this
      ensures advisors == old(advisors)[id := advisor]
      ensures pointcuts == old(pointcuts) && aspects == old(aspects)
      ensures tagged == old(tagged) && resources == old(resources)
      ensures GetAdvisor(id) == Ok(advisor)
      ensures forall other :: other != id ==> GetAdvisor(other) == old(GetAdvisor(other))
    {
      advisors := advisors[id := advisor];
    }
  }
}
