/**
 The packet arena and its intrusive free list (`PacketBufferPool`).

 A pointer to arena slot `i` is the number `i + 1` and 0 is the null pointer. The
 first word of a free slot links to the next free slot; the owner of a slot that
 was handed out overwrites that word with the packet header.
 */
module PacketPool {

  ghost predicate Distinct<T>(s: seq<T>) {
    s == [] || (s[0] !in s[1..] && Distinct(s[1..]))
  }

  ghost function Elements<T>(s: seq<T>): set<T> {
    set x | x in s
  }

  ghost function AllSlots(max: nat): (all: set<nat>)
    ensures forall p :: p in all <==> 1 <= p <= max
  {
    if max == 0 then {} else AllSlots(max - 1) + {max}
  }

  /** Following the links from `head` visits exactly `free` and then ends. */
  ghost predicate Linked(words: seq<nat>, head: nat, free: seq<nat>)
    decreases free
  {
    if free == [] then head == 0
    else head == free[0] && 1 <= head <= |words| && Linked(words, words[head - 1], free[1..])
  }

  /** The word of a slot that is not on the list does not matter. */
  lemma {:induction false} LinkedFrame(words: seq<nat>, head: nat, free: seq<nat>, packet: nat, word: nat)
    requires Linked(words, head, free) && 1 <= packet <= |words| && packet !in free
    ensures Linked(words[packet - 1 := word], head, free)
    decreases free
  {
    if free != [] {
      LinkedFrame(words, words[head - 1], free[1..], packet, word);
    }
  }

  /** Every slot is either on the list, once, or handed out, and not both. */
  ghost predicate Partition(free: seq<nat>, live: set<nat>, max: nat) {
    && Distinct(free)
    && Elements(free) !! live
    && Elements(free) + live == AllSlots(max)
  }

  lemma {:induction false} DistinctSize<T>(s: seq<T>)
    requires Distinct(s)
    ensures |Elements(s)| == |s|
  {
    if s != [] {
      DistinctSize(s[1..]);
      assert Elements(s) == Elements(s[1..]) + {s[0]};
    }
  }

  lemma {:induction false} AllSlotsSize(max: nat)
    ensures |AllSlots(max)| == max
  {
    if max > 0 {
      AllSlotsSize(max - 1);
    }
  }

  /** Free and handed-out slots always add up to the size of the arena. */
  lemma PartitionSize(free: seq<nat>, live: set<nat>, max: nat)
    requires Partition(free, live, max)
    ensures |free| + |live| == max
  {
    DistinctSize(free);
    AllSlotsSize(max);
    assert |Elements(free) + live| == |Elements(free)| + |live|;
  }

  /** Nothing is free exactly when everything is handed out. */
  lemma ExhaustedIff(free: seq<nat>, live: set<nat>, max: nat)
    requires Partition(free, live, max)
    ensures free == [] <==> |live| == max
  {
    PartitionSize(free, live, max);
  }

  lemma PartitionTake(free: seq<nat>, live: set<nat>, max: nat)
    requires Partition(free, live, max) && free != []
    ensures Partition(free[1..], live + {free[0]}, max) && free[0] !in live
  {
    assert Elements(free) == Elements(free[1..]) + {free[0]};
    assert free[0] in Elements(free) && free[0] !in Elements(free[1..]);
  }

  class PacketBufferPool {
    const maxPackets: nat
    const words: array<nat>
    var freeHead: nat
    ghost var free: seq<nat>
    ghost var live: set<nat>

    ghost predicate Valid()
      reads this, words
    {
      && words.Length == maxPackets
      && Partition(free, live, maxPackets)
      && Linked(words[..], freeHead, free)
    }

    constructor (max: nat)
      ensures Valid() && fresh(words) && maxPackets == max
      ensures live == {} && |free| == max
    {
      maxPackets := max;
      words := new nat[max];
      freeHead := 0;
      free := [];
      live := {};
      new;
      for index := 0 to max
        invariant |free| == index && Distinct(free) && Elements(free) == AllSlots(index)
        invariant Linked(words[..], freeHead, free) && live == {}
      {
        assert index + 1 !in Elements(free);
        LinkedFrame(words[..], freeHead, free, index + 1, freeHead);
        ghost var before := words[..];
        words[index] := freeHead;
        assert words[..] == before[index := freeHead];
        freeHead := index + 1;
        assert ([index + 1] + free)[1..] == free;
        free := [index + 1] + free;
        assert Elements(free) == AllSlots(index) + {index + 1};
      }
    }

    /** Fails only when every slot is handed out; never returns a slot that is. */
    method AllocatePacket() returns (code: int, packet: nat)
      requires Valid()
      modifies this
      ensures Valid()
      ensures code == -1 <==> |old(live)| == maxPackets
      ensures code == -1 <==> old(free) == []
      ensures code == -1 ==> free == old(free) && live == old(live)
      ensures code != -1 ==> code == 0 && packet == old(free)[0] && free == old(free)[1..]
      ensures code == 0 ==> packet != 0 && packet !in old(live) && live == old(live) + {packet}
    {
      ExhaustedIff(free, live, maxPackets);
      packet := freeHead;
      if packet == 0 {
        return -1, 0;
      }
      PartitionTake(free, live, maxPackets);
      freeHead := words[packet - 1];
      free, live := free[1..], live + {packet};
      code := 0;
    }

    /** A null packet is refused; any other handed-out one becomes the next to hand out. */
    method FreePacket(packet: nat) returns (code: int)
      requires Valid()
      requires packet == 0 || packet in live
      modifies this, words
      ensures Valid()
      ensures packet == 0 ==> code == -1 && free == old(free) && live == old(live)
      ensures packet != 0 ==> code == 0 && free == [packet] + old(free) && live == old(live) - {packet}
    {
      if packet == 0 {
        return -1;
      }
      assert packet in AllSlots(maxPackets);
      assert packet !in Elements(free);
      LinkedFrame(words[..], freeHead, free, packet, freeHead);
      ghost var before := words[..];
      words[packet - 1] := freeHead;
      assert words[..] == before[packet - 1 := freeHead];
      freeHead := packet;
      assert ([packet] + free)[1..] == free;
      assert Elements([packet] + free) == Elements(free) + {packet};
      free, live := [packet] + free, live - {packet};
      code := 0;
    }

    /** The owner of a slot writes its header over the link word: the list does not notice. */
    method OverwriteHeader(packet: nat, word: nat)
      requires Valid() && packet in live
      modifies words
      ensures Valid() && words[packet - 1] == word
    {
      assert packet in AllSlots(maxPackets);
      assert packet !in Elements(free);
      LinkedFrame(words[..], freeHead, free, packet, word);
      ghost var before := words[..];
      words[packet - 1] := word;
      assert words[..] == before[packet - 1 := word];
    }
  }
}
