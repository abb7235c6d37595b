/** The installed eviction policy: two ordered segments, updated by callbacks from the
    cache. Values are the access counts at which the policy filed the key. */
module CachePolicy {
  import opened Common
  import opened OrderedDict

  type Key = string
  type Segment = Dict<Key, nat>

  datatype Segments = Segments(probation: Segment, protected: Segment)

  // The front of probation, else the front of the protected segment.
  function Candidate(g: Segments): Option<Key> {
    if g.probation != [] then Some(g.probation[0].0)
    else if g.protected != [] then Some(g.protected[0].0)
    else None
  }

  function AfterHit(g: Segments, k: Key, now: nat): Segments {
    if Has(g.probation, k) then Segments(Delete(g.probation, k), Put(g.protected, k, now))
    else if Has(g.protected, k) then g.(protected := MoveToEnd(g.protected, k))
    else g
  }

  function AfterInsert(g: Segments, k: Key, now: nat): Segments {
    g.(probation := Put(g.probation, k, now))
  }

  function AfterEvict(g: Segments, k: Key): Segments {
    if Has(g.probation, k) then g.(probation := Delete(g.probation, k))
    else if Has(g.protected, k) then g.(protected := Delete(g.protected, k))
    else g
  }

  // The policy module's state, fresh for every cache.
  class My {
    var probationSegment: Segment
    var protectedSegment: Segment

    function State(): Segments
      reads this
    {
      Segments(probationSegment, protectedSegment)
    }

    constructor ()
      ensures State() == Segments([], [])
    {
      probationSegment, protectedSegment := [], [];
    }

    method Evict() returns (candidate: Option<Key>)
      ensures candidate == Candidate(State())
    {
      candidate := None;
      if |probationSegment| > 0 {
        candidate := Some(probationSegment[0].0);
      } else if |protectedSegment| > 0 {
        candidate := Some(protectedSegment[0].0);
      }
    }

    method UpdateAfterHit(k: Key, accessCount: nat)
      modifies this
      ensures State() == AfterHit(old(State()), k, accessCount)
    {
      if Has(probationSegment, k) {
        probationSegment := Delete(probationSegment, k);
        protectedSegment := Put(protectedSegment, k, accessCount);
      } else if Has(protectedSegment, k) {
        protectedSegment := MoveToEnd(protectedSegment, k);
      }
    }

    method UpdateAfterInsert(k: Key, accessCount: nat)
      modifies this
      ensures State() == AfterInsert(old(State()), k, accessCount)
    {
      probationSegment := Put(probationSegment, k, accessCount);
    }

    method UpdateAfterEvict(k: Key)
      modifies this
      ensures State() == AfterEvict(old(State()), k)
    {
      if Has(probationSegment, k) {
        probationSegment := Delete(probationSegment, k);
      } else if Has(protectedSegment, k) {
        protectedSegment := Delete(protectedSegment, k);
      }
    }
  }
}
