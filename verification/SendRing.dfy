/**
 The sending side's ring of packet handles (`SendQueue`, `McastSendQueue`).

 `Fill` is the value form of `fillPrimaryQueue`; both queue classes are proved
 against it, with the tail, or the smallest tail, as `base`.
 */
module SendRing {
  import opened Arithmetic
  import opened SequenceNumbers
  import opened Fragmentation
  import opened Packets
  import opened PacketPool

  /**
   `todo` are the fragments not yet in the ring, `free` the free list of the packet
   pool that the queue shares with the rest of its context.
   */
  datatype Ring = Ring(head: nat, wnd: nat, session: nat, handles: seq<Handle>, todo: seq<Buffer>, free: seq<nat>)

  datatype Filled = Filled(ring: Ring, code: int)

  /** `setPayload` refuses a null pointer with a positive length. */
  predicate Refused(f: Buffer) {
    f.addr == 0 && f.length > 0
  }

  predicate CanLoad(r: Ring) {
    |r.handles| > 0 && r.todo != [] && (At(r.handles, r.head).packet != 0 || r.free != [])
  }

  /**
   One turn of the fill loop. The slot's packet buffer is reused, or taken from the
   pool; a refused fragment is popped but does not enter the ring.
   */
  function Load(r: Ring): Ring
    requires CanLoad(r)
  {
    var slot, f := Slot(r.head, |r.handles|), r.todo[0];
    var reuse := r.handles[slot].packet != 0;
    var h := (if reuse then r.handles[slot] else RawHandle(r.free[0]))
             .(session := r.session, cmd := PKT_CMD_DATA, wnd := r.wnd, sn := ShortSn(r.head), ts := 0);
    var r' := r.(todo := r.todo[1..], free := if reuse then r.free else r.free[1..]);
    if Refused(f) then r'.(handles := r.handles[slot := h])
    else r'.(head := r.head + 1,
             handles := r.handles[slot := h.(dataBuf := f.addr, dataLen := f.length, inflight := true)])
  }

  /** `fillPrimaryQueue` */
  function Fill(r: Ring, base: nat): Filled
    requires |r.handles| > 0
    decreases |r.todo|
  {
    if r.todo == [] || U64Sub(r.head, base) > r.wnd || !CanLoad(r) then Filled(r, 0)
    else if Refused(r.todo[0]) then Filled(Load(r), -1)
    else Fill(Load(r), base)
  }

  /** `setWndSize` */
  function CapWnd(wnd: nat, capacity: nat): nat {
    Min(U16(wnd), U16(capacity))
  }

  // What the ring holds

  ghost predicate Carries(h: Handle, index: nat, f: Buffer, session: nat) {
    && h.packet != 0 && !h.compacted
    && h.cmd == PKT_CMD_DATA && h.session == session
    && h.sn == ShortSn(index)
    && h.dataBuf == f.addr && h.dataLen == f.length
  }

  /** No live index has lost its slot, and what is not yet in the ring is still to come. */
  ghost predicate Holds(r: Ring, base: nat, frags: seq<Buffer>) {
    && |r.handles| > 0
    && base <= r.head <= |frags| && r.head - base <= |r.handles|
    && r.todo == frags[r.head..]
    && (forall i: nat :: base <= i < r.head ==> Carries(At(r.handles, i), i, frags[i], r.session))
    && (forall s :: 0 <= s < |r.handles| && r.handles[s].packet != 0 ==> !r.handles[s].compacted)
    && (forall k :: 0 <= k < |r.free| ==> r.free[k] != 0)
  }

  lemma LoadKeeps(r: Ring, base: nat, frags: seq<Buffer>)
    requires Holds(r, base, frags) && CanLoad(r) && r.head - base < |r.handles| && !Refused(frags[r.head])
    ensures Holds(Load(r), base, frags)
    ensures Load(r).head == r.head + 1 && |Load(r).handles| == |r.handles|
    ensures var h := At(Load(r).handles, r.head); h.ts == 0 && h.wnd == r.wnd && h.inflight
    ensures forall i: nat :: base <= i < r.head ==> At(Load(r).handles, i) == At(r.handles, i)
  {
    StoreAt(r.handles, r.head, Load(r).handles[Slot(r.head, |r.handles|)]);
    assert Carries(At(Load(r).handles, r.head), r.head, frags[r.head], r.session);
  }

  /** Filling loads fragments in order until one of the three stop conditions holds. */
  ghost predicate FilledFrom(r: Ring, r': Ring, base: nat) {
    && r'.wnd == r.wnd && r'.session == r.session && |r'.handles| == |r.handles| > 0
    && base <= r.head <= r'.head
    && r'.head - base <= Max(r.head - base, r.wnd + 1)
    && (forall i: nat :: base <= i < r.head ==> At(r'.handles, i) == At(r.handles, i))
    && (forall i: nat :: r.head <= i < r'.head ==>
          At(r'.handles, i).ts == 0 && At(r'.handles, i).wnd == r.wnd && At(r'.handles, i).inflight)
    && (r'.todo == [] || r'.head - base > r.wnd || (r'.free == [] && At(r'.handles, r'.head).packet == 0))
  }

  /** With a window below the capacity, filling never overwrites a live slot and loses no fragment. */
  lemma {:induction false} FillKeeps(r: Ring, base: nat, frags: seq<Buffer>)
    requires Holds(r, base, frags) && r.wnd < |r.handles|
    requires forall i :: 0 <= i < |frags| ==> !Refused(frags[i])
    ensures Fill(r, base).code == 0
    ensures Holds(Fill(r, base).ring, base, frags)
    ensures FilledFrom(r, Fill(r, base).ring, base)
    decreases |r.todo|
  {
    if r.todo != [] && r.head - base <= r.wnd && CanLoad(r) {
      assert r.todo[0] == frags[r.head];
      LoadKeeps(r, base, frags);
      FillKeeps(Load(r), base, frags);
      FilledStep(r, Load(r), Fill(Load(r), base).ring, base);
    }
  }

  lemma FilledStep(r: Ring, mid: Ring, r': Ring, base: nat)
    requires base <= r.head && mid.head == r.head + 1 && |mid.handles| == |r.handles| > 0
    requires mid.wnd == r.wnd && mid.session == r.session && r.head - base <= r.wnd
    requires var h := At(mid.handles, r.head); h.ts == 0 && h.wnd == r.wnd && h.inflight
    requires forall i: nat :: base <= i < r.head ==> At(mid.handles, i) == At(r.handles, i)
    requires FilledFrom(mid, r', base)
    ensures FilledFrom(r, r', base)
  {
    forall i: nat | r.head <= i < r'.head
      ensures At(r'.handles, i).ts == 0 && At(r'.handles, i).wnd == r.wnd && At(r'.handles, i).inflight
    {
      if i == r.head { assert At(r'.handles, i) == At(mid.handles, i); }
    }
  }

  /**
   The asserted bound `wnd <= capacity` is not enough: the loop lets `wnd + 1` fragments
   in, and with the window equal to the capacity the last of them takes the slot of the
   oldest one.
   */
  lemma FullWindowOverwrites(r: Ring, base: nat, frags: seq<Buffer>)
    requires Holds(r, base, frags) && r.wnd == |r.handles| == r.head - base && CanLoad(r)
    requires !Refused(frags[r.head])
    ensures U64Sub(r.head, base) <= r.wnd
    ensures At(Load(r).handles, base).dataBuf == frags[r.head].addr
    ensures r.wnd < SN_SPACE ==> !Carries(At(Load(r).handles, base), base, frags[base], r.session)
  {
    var cap := |r.handles|;
    assert Slot(r.head, cap) == Slot(base, cap);
    if r.wnd < SN_SPACE {
      if ShortSn(r.head) == ShortSn(base) {
        ShortSnInjective(r.head, base);
      }
    }
  }

  // Fragment conservation

  /**
   Whatever happens, popped and remaining fragments add up: each turn of the loop moves
   exactly the next one out of `todo`, and into the ring unless it is refused.
   */
  lemma {:induction false} FillConserves(r: Ring, base: nat)
    requires |r.handles| > 0
    ensures var f := Fill(r, base);
            && f.ring.head >= r.head
            && f.code in {0, -1}
            && f.ring.head - r.head + |f.ring.todo| + (if f.code == 0 then 0 else 1) == |r.todo|
            && f.ring.todo == r.todo[|r.todo| - |f.ring.todo|..]
    ensures Fill(r, base).code == -1 ==> exists k :: 0 <= k < |r.todo| && Refused(r.todo[k])
    decreases |r.todo|
  {
    if r.todo != [] && U64Sub(r.head, base) <= r.wnd && CanLoad(r) && !Refused(r.todo[0]) {
      FillConserves(Load(r), base);
      if Fill(r, base).code == -1 {
        var k :| 0 <= k < |Load(r).todo| && Refused(Load(r).todo[k]);
        assert r.todo[k + 1] == Load(r).todo[k];
      }
    }
  }

  lemma {:induction false} FillKeepsWnd(r: Ring, base: nat)
    requires |r.handles| > 0
    ensures Fill(r, base).ring.wnd == r.wnd && |Fill(r, base).ring.handles| == |r.handles|
    decreases |r.todo|
  {
    if r.todo != [] && U64Sub(r.head, base) <= r.wnd && CanLoad(r) && !Refused(r.todo[0]) {
      FillKeepsWnd(Load(r), base);
    }
  }

  // Packet buffers

  function Lacks(h: Handle): nat { if h.packet == 0 then 1 else 0 }

  /** Every packet buffer is free or serves one slot. */
  ghost predicate Owns(r: Ring) {
    && (forall i, j :: 0 <= i < j < |r.handles| && r.handles[i].packet != 0 ==>
          r.handles[i].packet != r.handles[j].packet)
    && (forall i, k :: 0 <= i < |r.handles| && 0 <= k < |r.free| ==> r.handles[i].packet != r.free[k])
    && (forall k, l :: 0 <= k < l < |r.free| ==> r.free[k] != r.free[l])
    && (forall k :: 0 <= k < |r.free| ==> r.free[k] != 0)
  }

  /** Filling never gives one packet buffer to two slots. */
  lemma {:induction false} FillOwns(r: Ring, base: nat)
    requires |r.handles| > 0 && Owns(r)
    ensures Owns(Fill(r, base).ring)
    decreases |r.todo|
  {
    if r.todo != [] && U64Sub(r.head, base) <= r.wnd && CanLoad(r) {
      LoadOwns(r);
      if !Refused(r.todo[0]) { FillOwns(Load(r), base); }
    }
  }

  lemma LoadOwns(r: Ring)
    requires CanLoad(r) && Owns(r)
    ensures Owns(Load(r))
  {
    var slot := Slot(r.head, |r.handles|);
    var h := Load(r).handles[slot];
    assert Load(r).handles == r.handles[slot := h];
    assert h.packet == if r.handles[slot].packet != 0 then r.handles[slot].packet else r.free[0];
  }

  /** How many of the slots of the next `n` indices from `i` on have no packet buffer yet. */
  function Needs(handles: seq<Handle>, i: nat, n: nat): nat
    requires |handles| > 0
    decreases n
  {
    if n == 0 then 0 else Lacks(At(handles, i)) + Needs(handles, i + 1, n - 1)
  }

  lemma {:induction false} NeedsLast(handles: seq<Handle>, i: nat, n: nat)
    requires |handles| > 0
    ensures Needs(handles, i, n + 1) == Needs(handles, i, n) + Lacks(At(handles, i + n))
    decreases n
  {
    if n > 0 { NeedsLast(handles, i + 1, n - 1); }
  }

  lemma {:induction false} NeedsSame(a: seq<Handle>, b: seq<Handle>, i: nat, n: nat)
    requires |a| > 0 && |b| > 0 && forall j: nat :: i <= j < i + n ==> At(a, j).packet == At(b, j).packet
    ensures Needs(a, i, n) == Needs(b, i, n)
    decreases n
  {
    if n > 0 { NeedsSame(a, b, i + 1, n - 1); }
  }

  /** The packet buffers that the fragments still outside the ring will take, less those in the pool. */
  function Shortage(r: Ring): int
    requires |r.handles| > 0
  {
    Needs(r.handles, r.head, Min(|r.todo|, |r.handles|)) - |r.free|
  }

  ghost predicate NoneRefused(todo: seq<Buffer>) {
    forall i :: 0 <= i < |todo| ==> !Refused(todo[i])
  }

  /** Loading a fragment takes a buffer exactly when it also removes the need for one. */
  lemma LoadShortage(r: Ring)
    requires CanLoad(r) && !Refused(r.todo[0]) && forall k :: 0 <= k < |r.free| ==> r.free[k] != 0
    ensures Shortage(Load(r)) == Shortage(r)
  {
    var next := Load(r);
    var n := Min(|r.todo|, |r.handles|);
    assert |next.free| == |r.free| - Lacks(At(r.handles, r.head)) && next.todo == r.todo[1..];
    LoadElsewhere(r);
    NeedsMoved(r.handles, next.handles, r.head, n);
    if |r.todo| > |r.handles| { NeedsLast(next.handles, r.head + 1, n - 1); }
  }

  /** Loading supplies its own slot and leaves all others alone. */
  lemma LoadElsewhere(r: Ring)
    requires CanLoad(r) && !Refused(r.todo[0]) && forall k :: 0 <= k < |r.free| ==> r.free[k] != 0
    ensures var a, b := r.handles, Load(r).handles;
            && |b| == |a| && Lacks(At(b, r.head)) == 0 && Lacks(At(b, r.head + |a|)) == 0
            && forall j: nat :: r.head < j < r.head + |a| ==> At(b, j).packet == At(a, j).packet
  {
    var a, b := r.handles, Load(r).handles;
    var slot := Slot(r.head, |a|);
    assert b == a[slot := b[slot]];
    StoreAt(a, r.head, b[slot]);
    assert Slot(r.head + |a|, |a|) == slot;
  }

  lemma NeedsMoved(a: seq<Handle>, b: seq<Handle>, i: nat, n: nat)
    requires |a| == |b| > 0 && 0 < n <= |a|
    requires forall j: nat :: i < j < i + |a| ==> At(b, j).packet == At(a, j).packet
    ensures Needs(a, i, n) == Lacks(At(a, i)) + Needs(b, i + 1, n - 1)
  {
    NeedsSame(b, a, i + 1, n - 1);
  }

  lemma {:induction false} FillShortage(r: Ring, base: nat)
    requires |r.handles| > 0 && NoneRefused(r.todo) && forall k :: 0 <= k < |r.free| ==> r.free[k] != 0
    ensures |Fill(r, base).ring.handles| > 0 && Shortage(Fill(r, base).ring) == Shortage(r)
    decreases |r.todo|
  {
    if r.todo != [] && U64Sub(r.head, base) <= r.wnd && CanLoad(r) {
      LoadShortage(r);
      FillShortage(Load(r), base);
    }
  }

  /** A ring without shortage stops filling only when nothing is left or something is in flight. */
  lemma FilledNotStalled(r: Ring, r': Ring, base: nat)
    requires FilledFrom(r, r', base) && Shortage(r') <= 0
    ensures r'.todo == [] || base < r'.head
  {}

  // When a push fails

  lemma {:induction false} CutAllLoadable(list: seq<Buffer>, size: nat)
    requires 0 < size && forall b :: b in list ==> !Refused(b)
    ensures forall f :: f in CutAll(list, size) ==> !Refused(f)
  {
    if list != [] {
      CutAllLoadable(list[1..], size);
      forall f | f in Cut(list[0], size) ensures !Refused(f) {
        var k :| 0 <= k < |Cut(list[0], size)| && Cut(list[0], size)[k] == f;
        if list[0].length > 0 {
          CutAt(list[0], size, k);
          MulMonotone(size, 0, k);
          assert list[0] in list;
        } else {
          assert Cut(list[0], size) == [list[0]];
        }
      }
    }
  }

  lemma {:induction false} CutAllRefused(list: seq<Buffer>, size: nat, b: Buffer)
    requires 0 < size && b in list && Refused(b)
    ensures exists f :: f in CutAll(list, size) && Refused(f)
  {
    if list[0] == b {
      assert Cut(b, size)[0] in CutAll(list, size) && Refused(Cut(b, size)[0]);
    } else {
      assert b in list[1..];
      CutAllRefused(list[1..], size, b);
      var f :| f in CutAll(list[1..], size) && Refused(f);
      assert f in CutAll(list, size);
    }
  }

  /** Window and pool have room for everything that is to come. */
  ghost predicate Roomy(r: Ring, base: nat) {
    && |r.handles| > 0 && base <= r.head && r.head - base + |r.todo| <= r.wnd + 1
    && Shortage(r) <= 0 && forall k :: 0 <= k < |r.free| ==> r.free[k] != 0
  }

  /** A refused fragment gives its packet buffer to the next one. */
  lemma RefusedShortage(r: Ring)
    requires CanLoad(r) && Refused(r.todo[0]) && forall k :: 0 <= k < |r.free| ==> r.free[k] != 0
    ensures Shortage(Load(r)) <= Shortage(r)
  {
    var a, b := r.handles, Load(r).handles;
    var n, m := Min(|r.todo|, |a|), Min(|r.todo| - 1, |a|);
    var slot := Slot(r.head, |a|);
    assert b == a[slot := b[slot]] && |Load(r).free| == |r.free| - Lacks(At(a, r.head));
    StoreAt(a, r.head, b[slot]);
    NeedsMoved(a, b, r.head, n);
    if m < n {
      NeedsFewer(b, r.head, m, r.head + 1, n - 1);
    }
  }

  lemma {:induction false} NeedsFewer(handles: seq<Handle>, i: nat, m: nat, j: nat, n: nat)
    requires |handles| > 0 && (m == 0 || (Lacks(At(handles, i)) == 0 && j == i + 1 && m - 1 <= n))
    ensures Needs(handles, i, m) <= Needs(handles, j, n)
  {
    if m > 0 { NeedsMonotone(handles, j, m - 1, n); }
  }

  lemma {:induction false} NeedsMonotone(handles: seq<Handle>, i: nat, m: nat, n: nat)
    requires |handles| > 0 && m <= n
    ensures Needs(handles, i, m) <= Needs(handles, i, n)
    decreases n
  {
    if m > 0 { NeedsMonotone(handles, i + 1, m - 1, n - 1); }
  }

  /** How a roomy fill ends: with everything in the ring, or just behind the first refused fragment. */
  ghost predicate Ended(r: Ring, f: Filled, base: nat) {
    if f.code == 0 then NoneRefused(r.todo) && f.ring.todo == [] && f.ring.head == r.head + |r.todo|
    else exists k :: && 0 <= k < |r.todo| && Refused(r.todo[k]) && NoneRefused(r.todo[..k])
                     && f.ring.head == r.head + k && f.ring.todo == r.todo[k + 1..] && Roomy(f.ring, base)
  }

  lemma {:induction false} FillEnds(r: Ring, base: nat)
    requires Roomy(r, base)
    ensures Fill(r, base).code in {0, -1} && Ended(r, Fill(r, base), base)
    decreases |r.todo|
  {
    if r.todo != [] {
      assert CanLoad(r);
      if Refused(r.todo[0]) {
        RefusedShortage(r);
        assert NoneRefused(r.todo[..0]);
      } else {
        LoadShortage(r);
        FillEnds(Load(r), base);
        EndedLater(r, Fill(r, base), base);
      }
    }
  }

  lemma EndedLater(r: Ring, f: Filled, base: nat)
    requires CanLoad(r) && !Refused(r.todo[0]) && Ended(Load(r), f, base)
    ensures Ended(r, f, base)
  {
    var rest := Load(r).todo;
    assert r.todo == [r.todo[0]] + rest;
    if f.code != 0 {
      var k :| 0 <= k < |rest| && Refused(rest[k]) && NoneRefused(rest[..k])
               && f.ring.head == Load(r).head + k && f.ring.todo == rest[k + 1..] && Roomy(f.ring, base);
      assert r.todo[..k + 1] == [r.todo[0]] + rest[..k] && r.todo[k + 1] == rest[k];
      assert r.todo[k + 2..] == rest[k + 1..];
    }
  }

  /**
   With room in window and pool a push fails if and only if a listed buffer is null with a
   positive length. Then what precedes its first fragment is in the ring, and everything
   behind that fragment stays queued.
   */
  lemma PushFailsIff(r: Ring, base: nat, list: seq<Buffer>, size: nat)
    requires 0 < size && NoneRefused(r.todo) && Roomy(r.(todo := r.todo + CutAll(list, size)), base)
    ensures var queued := r.(todo := r.todo + CutAll(list, size));
            && (Fill(queued, base).code == -1 <==> exists b :: b in list && Refused(b))
            && Ended(queued, Fill(queued, base), base)
  {
    var all := r.todo + CutAll(list, size);
    FillEnds(r.(todo := all), base);
    if exists b :: b in list && Refused(b) {
      var b :| b in list && Refused(b);
      CutAllRefused(list, size, b);
      var f :| f in CutAll(list, size) && Refused(f);
      assert f in all;
    } else {
      CutAllLoadable(list, size);
      assert forall i :: 0 <= i < |all| ==> all[i] in r.todo || all[i] in CutAll(list, size);
      assert forall b :: b in r.todo ==> !Refused(b);
    }
  }

  ghost predicate FirstRefused(todo: seq<Buffer>, k: nat) {
    k < |todo| && Refused(todo[k]) && NoneRefused(todo[..k])
  }

  lemma FirstRefusedUnique(todo: seq<Buffer>, j: nat, k: nat)
    requires FirstRefused(todo, j) && FirstRefused(todo, k)
    ensures j == k
  {
    assert forall i :: 0 <= i < j ==> !Refused(todo[..j][i]) && todo[..j][i] == todo[i];
    assert forall i :: 0 <= i < k ==> !Refused(todo[..k][i]) && todo[..k][i] == todo[i];
  }

  lemma FailsAt(r: Ring, base: nat, k: nat)
    requires Roomy(r, base) && FirstRefused(r.todo, k)
    ensures var f := Fill(r, base);
            f.code == -1 && f.ring.head == r.head + k && f.ring.todo == r.todo[k + 1..] && Roomy(f.ring, base)
  {
    var f := Fill(r, base);
    FillEnds(r, base);
    var j: nat :| && j < |r.todo| && Refused(r.todo[j]) && NoneRefused(r.todo[..j])
                  && f.ring.head == r.head + j && f.ring.todo == r.todo[j + 1..] && Roomy(f.ring, base);
    FirstRefusedUnique(r.todo, j, k);
  }

  /**
   A failed push goes on: the next fill sends what stayed queued, and every fragment
   behind the refused one takes the index before its own.
   */
  lemma FailedPushGoesOn(r: Ring, base: nat, list: seq<Buffer>, size: nat, k: nat)
    requires 0 < size && NoneRefused(r.todo) && Roomy(r.(todo := r.todo + CutAll(list, size)), base)
    requires var all := r.todo + CutAll(list, size);
             FirstRefused(all, k) && NoneRefused(all[k + 1..])
    ensures var all := r.todo + CutAll(list, size);
            var failed := Fill(r.(todo := all), base);
            && failed.code == -1 && failed.ring.todo == all[k + 1..] && |failed.ring.handles| > 0
            && Fill(failed.ring, base).code == 0 && Fill(failed.ring, base).ring.todo == []
            && Fill(failed.ring, base).ring.head == r.head + |all| - 1
  {
    var queued := r.(todo := r.todo + CutAll(list, size));
    FailsAt(queued, base, k);
    FillEnds(Fill(queued, base).ring, base);
  }

  /** A list of one null buffer and one other: the push fails, and the other buffer is sent all the same. */
  lemma NullBufferExample(r: Ring, base: nat, length: nat, b: Buffer, size: nat)
    requires 0 < length <= size && r.todo == [] && b.length <= size && !Refused(b)
    requires Roomy(r.(todo := [Buffer(0, length), b]), base)
    ensures CutAll([Buffer(0, length), b], size) == [Buffer(0, length), b]
    ensures var failed := Fill(r.(todo := [Buffer(0, length), b]), base);
            && failed.code == -1 && failed.ring.todo == [b] && |failed.ring.handles| > 0
            && Fill(failed.ring, base).code == 0 && Fill(failed.ring, base).ring.head == r.head + 1
  {
    var list := [Buffer(0, length), b];
    assert list[1..] == [b] && [b][1..] == [];
    assert CutAll([b], size) == [b] + CutAll([], size) && CutAll(list, size) == [list[0]] + CutAll([b], size);
    assert r.todo + list == list;
    FailedPushGoesOn(r, base, list, size, 0);
    assert list[0 + 1..] == [b];
  }
}
