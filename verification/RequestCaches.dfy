/** `RequestCache`: work requests are kept in a ring for reuse instead of being deleted. */
module RequestCaches {
  import opened SequenceNumbers

  const CACHE_CAPACITY: nat := 4096

  datatype Work = Work(addr: seq<nat>, length: seq<nat>, lkey: seq<nat>, immData: nat, depth: nat, status: nat,
                       context: nat)

  /** What `new Request()` writes, with the status unknown. */
  const BLANK_WORK: Work := Work([0, 0], [0, 0], [0, 0], 0, 0, 0, 0)

  class Request {
    var work: Work

    constructor ()
      ensures work == BLANK_WORK
    {
      work := BLANK_WORK;
    }
  }

  /** The requests the ring keeps, oldest first. */
  ghost function Kept(ring: seq<Request?>, tail: nat, head: nat): (s: seq<Request?>)
    requires |ring| > 0 && tail <= head
    ensures |s| == head - tail
  {
    seq(head - tail, k requires 0 <= k < head - tail => At(ring, tail + k))
  }

  /** Storing behind the newest adds it at the end, as long as the ring is not full. */
  lemma KeptPush(ring: seq<Request?>, tail: nat, head: nat, r: Request)
    requires |ring| > 0 && tail <= head < tail + |ring|
    ensures Kept(ring[Slot(head, |ring|) := r], tail, head + 1) == Kept(ring, tail, head) + [r]
  {
    StoreAt<Request?>(ring, head, r);
    forall k: nat | k < head - tail
      ensures Kept(ring[Slot(head, |ring|) := r], tail, head + 1)[k] == Kept(ring, tail, head)[k]
    {}
  }

  lemma KeptPop(ring: seq<Request?>, tail: nat, head: nat)
    requires |ring| > 0 && tail < head
    ensures Kept(ring, tail, head) == [At(ring, tail)] + Kept(ring, tail + 1, head)
  {
    forall k: nat | 0 < k < head - tail ensures Kept(ring, tail, head)[k] == Kept(ring, tail + 1, head)[k - 1] {}
  }

  /** Nothing is kept twice, and nothing kept or deleted is in use. */
  ghost predicate Apart(cached: seq<Request?>, live: set<Request>, gone: set<Request>) {
    && (forall r :: r in cached ==> r != null && r !in live && r !in gone)
    && (forall j, k :: 0 <= j < k < |cached| ==> cached[j] != cached[k])
    && live !! gone
  }

  ghost function Elements(cached: seq<Request?>): set<Request?> {
    if cached == [] then {} else {cached[0]} + Elements(cached[1..])
  }

  /** The oldest leaves the ring, to be used or to be deleted. */
  lemma ApartPop(cached: seq<Request?>, live: set<Request>, gone: set<Request>)
    requires Apart(cached, live, gone) && cached != []
    ensures cached[0] != null
    ensures Apart(cached[1..], live + {cached[0]}, gone) && Apart(cached[1..], live, gone + {cached[0]})
  {
    assert cached[0] in cached;
    forall r | r in cached[1..] ensures r != null && r != cached[0] && r !in live && r !in gone {
      var k :| 0 <= k < |cached[1..]| && cached[1..][k] == r;
      assert cached[k + 1] == r && r in cached;
    }
  }

  class RequestCache {
    const ring: array<Request?>
    var head: nat
    var tail: nat
    var made: nat
    var freed: nat
    /** Handed out and not yet given back. */
    ghost var live: set<Request>
    /** Given to `delete`. */
    ghost var gone: set<Request>

    ghost function Cached(): (s: seq<Request?>)
      requires ring.Length > 0 && tail <= head
      reads this, ring
    {
      Kept(ring[..], tail, head)
    }

    /** Every request made is in use, kept or deleted, and only one of these. */
    ghost predicate Valid()
      reads this, ring
    {
      && ring.Length == CACHE_CAPACITY && tail <= head <= tail + CACHE_CAPACITY
      && Apart(Cached(), live, gone)
      && made == freed + |live| + |Cached()| && freed == |gone|
    }

    constructor ()
      ensures Valid() && fresh(ring) && Cached() == [] && live == {} && gone == {} && made == 0
    {
      ring := new Request?[CACHE_CAPACITY](_ => null);
      head, tail, made, freed := 0, 0, 0, 0;
      live, gone := {}, {};
    }

    /** A blank request that nobody else has: the oldest kept one, or a new one if none is kept. */
    method Allocate() returns (r: Request)
      requires Valid()
      modifies this, set o | o in Cached() :: o
      ensures Valid() && gone == old(gone) && freed == old(freed) && ring[..] == old(ring[..])
      ensures r.work == BLANK_WORK && r !in old(live) && live == old(live) + {r}
      ensures old(Cached()) == [] ==> fresh(r) && Cached() == [] && made == old(made) + 1
      ensures old(Cached()) != [] ==>
                r == old(Cached())[0] && Cached() == old(Cached())[1..] && made == old(made)
    {
      if head - tail == 0 {
        made := made + 1;
        r := new Request();
      } else {
        SlotIsRemainder(tail, CACHE_CAPACITY);
        KeptPop(ring[..], tail, head);
        ghost var cached := Cached();
        ApartPop(cached, live, gone);
        r := ring[tail % CACHE_CAPACITY];
        assert r in cached;
        tail := tail + 1;
        assert Cached() == cached[1..];
        r.work := BLANK_WORK;
      }
      live := live + {r};
    }

    /** The request is kept for reuse, or deleted if the ring is full. */
    method Deallocate(r: Request)
      requires Valid() && r in live
      modifies this, ring
      ensures Valid() && live == old(live) - {r} && made == old(made)
      ensures if |old(Cached())| == CACHE_CAPACITY
              then Cached() == old(Cached()) && gone == old(gone) + {r} && freed == old(freed) + 1
              else Cached() == old(Cached()) + [r] && gone == old(gone) && freed == old(freed)
    {
      live := live - {r};
      if head - tail == CACHE_CAPACITY {
        gone := gone + {r};
        freed := freed + 1;
        return;
      }
      SlotIsRemainder(head, CACHE_CAPACITY);
      KeptPush(ring[..], tail, head, r);
      ghost var before := ring[..];
      ring[head % CACHE_CAPACITY] := r;
      assert ring[..] == before[Slot(head, CACHE_CAPACITY) := r];
      head := head + 1;
    }

    /** The destructor deletes what is kept, so that only requests still handed out remain undeleted. */
    method Destroy()
      requires Valid()
      modifies this
      ensures Valid() && Cached() == [] && live == old(live) && made == old(made)
      ensures gone == old(gone) + old(Elements(Cached()))
      ensures made - freed == |live|
    {
      while tail != head
        invariant Valid() && live == old(live) && made == old(made)
        invariant gone + Elements(Cached()) == old(gone) + old(Elements(Cached()))
        decreases head - tail
      {
        DestroyOne();
      }
    }

    method DestroyOne()
      requires Valid() && tail != head
      modifies this
      ensures Valid() && live == old(live) && made == old(made) && head == old(head) && tail == old(tail) + 1
      ensures gone + Elements(Cached()) == old(gone) + old(Elements(Cached()))
    {
      KeptPop(ring[..], tail, head);
      SlotIsRemainder(tail, CACHE_CAPACITY);
      ghost var cached := Cached();
      ApartPop(cached, live, gone);
      var slice := ring[tail % CACHE_CAPACITY];
      tail := tail + 1;
      assert Cached() == cached[1..];
      gone := gone + {slice};
      freed := freed + 1;
    }
  }
}
