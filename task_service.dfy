/** Task services: the named worker pools that run the terrain's load
    requests. Their internals are not part of this model; a service is its
    name, its thread count, the frame stamp it last received and the number of
    requests it holds. */
module TaskServices {
  import opened Sets

  class TaskService {
    const name: string
    var numThreads: int
    var stamp: int
    var numRequests: nat

    constructor (name: string, numThreads: int)
      ensures this.name == name && this.numThreads == numThreads
      ensures stamp == 0 && numRequests == 0
    {
      this.name := name;
      this.numThreads := numThreads;
      this.stamp := 0;
      this.numRequests := 0;
    }

    method SetNumThreads(n: int)
      modifies this`numThreads
      ensures numThreads == n
    {
      numThreads := n;
    }

    method SetStamp(s: int)
      modifies this`stamp
      ensures stamp == s
    {
      stamp := s;
    }
  }

  /** The requests held by the services of `services` under the ids `ids`. */
  ghost function SumRequests(services: map<int, TaskService>, ids: set<int>): nat
    requires ids <= services.Keys
    reads services.Values
    decreases ids
  {
    if ids == {} then 0
    else
      IntSetHasElement(ids);
      var id :| id in ids;
      services[id].numRequests + SumRequests(services, ids - {id})
  }

  /** The sum does not depend on the order the ids are taken in: any id can
      be taken first. */
  lemma {:induction false} SumRequestsTake(services: map<int, TaskService>, ids: set<int>, id: int)
    requires ids <= services.Keys && id in ids
    ensures SumRequests(services, ids) == services[id].numRequests + SumRequests(services, ids - {id})
    decreases ids
  {
    IntSetHasElement(ids);
    var first :| first in ids && SumRequests(services, ids) ==
      services[first].numRequests + SumRequests(services, ids - {first});
    if first != id {
      calc {
        SumRequests(services, ids);
        services[first].numRequests + SumRequests(services, ids - {first});
        { SumRequestsTake(services, ids - {first}, id); }
        services[first].numRequests + services[id].numRequests + SumRequests(services, ids - {first} - {id});
        { assert ids - {first} - {id} == ids - {id} - {first}; }
        services[id].numRequests + services[first].numRequests + SumRequests(services, ids - {id} - {first});
        { SumRequestsTake(services, ids - {id}, first); }
        services[id].numRequests + SumRequests(services, ids - {id});
      }
    }
  }
}
