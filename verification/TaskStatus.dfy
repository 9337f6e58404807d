/** Tasks, the numbers `push` gives them, and when `getStatus` tells the truth about them. */
module TaskStatus {
  import opened Arithmetic
  import opened SequenceNumbers
  import opened Fragmentation

  datatype Status = Unknown | Pending | Success

  /** The comparison of `getStatus`, on 24-bit numbers as plain integers. */
  predicate Finished(lastSn: nat, ackSn: nat, nextSn: nat) {
    if ackSn <= nextSn then lastSn <= ackSn else lastSn >= nextSn
  }

  /** What it says of a task that ends at index `end`, when the queue holds `[tail, head)`. */
  predicate Reported(end: nat, tail: nat, head: nat) {
    Finished(ShortSn(end), ShortSn(tail), ShortSn(head))
  }

  /** Which 2^24 indices an index belongs to. */
  function Block(i: nat): nat { i / SN_SPACE }

  /** When the report on three indices is right, by the blocks they are in. */
  predicate Truthful(end: nat, tail: nat, head: nat) {
    var e, t, h := ShortSn(end), ShortSn(tail), ShortSn(head);
    if Block(tail) == Block(head) then
      Block(end) == Block(tail) || (Block(end) < Block(tail) && e <= t) || (Block(end) > Block(tail) && e > t)
    else
      if Block(end) == Block(tail) then h <= e <= t else if Block(end) < Block(tail) then h <= e else e < h
  }

  lemma BlockSplit(i: nat)
    ensures i == SN_SPACE * Block(i) + ShortSn(i)
  {}

  lemma BlockOrder(i: nat, j: nat)
    ensures Block(i) < Block(j) ==> i < j
    ensures Block(i) == Block(j) ==> (i <= j <==> ShortSn(i) <= ShortSn(j))
  {
    BlockSplit(i);
    BlockSplit(j);
  }

  lemma AdjacentBlocks(tail: nat, head: nat)
    requires tail <= head < tail + SN_SPACE
    ensures Block(tail) == Block(head) <==> ShortSn(tail) <= ShortSn(head)
    ensures Block(tail) != Block(head) ==> Block(head) == Block(tail) + 1
  {
    BlockSplit(tail);
    BlockSplit(head);
  }

  /** For any three indices the report is right if and only if `Truthful` holds of them. */
  lemma ReportedIff(end: nat, tail: nat, head: nat)
    requires tail <= head < tail + SN_SPACE
    ensures (Reported(end, tail, head) <==> end <= tail) <==> Truthful(end, tail, head)
  {
    AdjacentBlocks(tail, head);
    BlockOrder(end, tail);
    BlockOrder(tail, end);
  }

  /** The most a queue holds between its tail and its head. */
  const WIDEST: nat := 66

  /** The report is right at every tail from `from` to `last`, whatever the queue holds. */
  ghost predicate RightThroughout(end: nat, from: nat, last: nat) {
    forall tail: nat, head: nat :: from <= tail <= last && tail <= head <= tail + WIDEST ==>
      (Reported(end, tail, head) <==> end <= tail)
  }

  /**
   What a caller can check, `border` being the next multiple of 2^24: the tail does not
   reach it, the task ends before the head can, and the head does not overtake the task's
   own short number beyond it.
   */
  predicate Undisturbed(end: nat, from: nat, last: nat) {
    var border := SN_SPACE * (Block(from) + 1);
    last < border && end + WIDEST <= border && last + WIDEST <= border + ShortSn(end)
  }

  /**
   While the tail goes from `from`, where a task is unfinished, to `last`, where it is
   finished, the report is right all the time if and only if `Undisturbed` holds.
   */
  lemma RightThroughoutIff(end: nat, from: nat, last: nat)
    requires from < end <= last
    ensures RightThroughout(end, from, last) <==> Undisturbed(end, from, last)
  {
    if Undisturbed(end, from, last) {
      forall tail: nat, head: nat | from <= tail <= last && tail <= head <= tail + WIDEST
        ensures Reported(end, tail, head) <==> end <= tail
      {
        RightWhile(end, from, last, tail, head);
      }
    } else {
      var tail, head := Disturbed(end, from, last);
      assert !(Reported(end, tail, head) <==> end <= tail);
    }
  }

  lemma RightWhile(end: nat, from: nat, last: nat, tail: nat, head: nat)
    requires from < end <= last && Undisturbed(end, from, last)
    requires from <= tail <= last && tail <= head <= tail + WIDEST
    ensures Reported(end, tail, head) <==> end <= tail
  {
    BlockSplit(from);
    BlockSplit(end);
    BlockSplit(tail);
    BlockSplit(head);
    ReportedIff(end, tail, head);
  }

  /** A state in which the report is wrong. */
  lemma Disturbed(end: nat, from: nat, last: nat) returns (tail: nat, head: nat)
    requires from < end <= last && !Undisturbed(end, from, last)
    ensures from <= tail <= last && tail <= head <= tail + WIDEST
    ensures !(Reported(end, tail, head) <==> end <= tail)
  {
    var border := SN_SPACE * (Block(from) + 1);
    BlockSplit(from);
    if last >= border {
      tail := if end < border then border else border - 1;
      head := tail;
      DisturbedAtBorder(end, Block(from));
    } else {
      tail := if end + WIDEST > border then end - 1 else last;
      head := tail + WIDEST;
      DisturbedBefore(end, Block(from), last);
    }
  }

  /** A tail on the border is behind the short number of a task before it, one just below ahead of one beyond. */
  lemma DisturbedAtBorder(end: nat, block: nat)
    requires end > SN_SPACE * block
    ensures var border := SN_SPACE * (block + 1);
            if end < border then !Reported(end, border, border) else Reported(end, border - 1, border - 1)
  {
    var border := SN_SPACE * (block + 1);
    BlockSplit(end);
    assert ShortSn(border) == 0 && ShortSn(border - 1) == SN_SPACE - 1;
  }

  /** The head crosses the border before the task is finished, or overtakes its short number after. */
  lemma DisturbedBefore(end: nat, block: nat, last: nat)
    requires SN_SPACE * block < end <= last < SN_SPACE * (block + 1)
    ensures var border := SN_SPACE * (block + 1);
            && (end + WIDEST > border ==> Reported(end, end - 1, end - 1 + WIDEST))
            && (end + WIDEST <= border && last + WIDEST > border + ShortSn(end) ==> !Reported(end, last, last + WIDEST))
  {
    var border := SN_SPACE * (block + 1);
    InBlock(end, block);
    InBlock(end - 1, block);
    InBlock(last, block);
    if end - 1 + WIDEST >= border { InBlock(end - 1 + WIDEST, block + 1); }
    if last + WIDEST >= border { InBlock(last + WIDEST, block + 1); }
  }

  lemma InBlock(i: nat, block: nat)
    requires SN_SPACE * block <= i < SN_SPACE * (block + 1)
    ensures Block(i) == block && ShortSn(i) == i - SN_SPACE * block
  {
    BlockSplit(i);
  }

  // What a queue records of its tasks

  /**
   A task as `push` records it: the low bits of the fragment count. History: its fragments
   are those of `[start, end)`, and `skipped` empty ones were pushed up to its end.
   */
  datatype Task = Task(lastSn: nat, start: nat, end: nat, skipped: nat)

  datatype Book = Book(fragmentId: nat, tasks: seq<Task>)

  const NEW_BOOK: Book := Book(0, [])

  /** `push` of a list, after the fragments `frags`. */
  function Enter(b: Book, frags: seq<Buffer>, list: seq<Buffer>, size: nat): Book
    requires 0 < size
  {
    var id, all := b.fragmentId + TotalCount(list, size), frags + CutAll(list, size);
    Book(id, b.tasks + [Task(ShortSn(id), |frags|, |all|, EmptyBuffers(all))])
  }

  ghost predicate TaskOk(t: Task, frags: seq<Buffer>) {
    && t.start <= t.end <= |frags| && t.skipped == EmptyBuffers(frags[..t.end]) <= t.end
    && t.lastSn == ShortSn(t.end - t.skipped)
  }

  /** The count misses exactly the empty fragments, at the end and at the end of every task. */
  ghost predicate BookOk(b: Book, frags: seq<Buffer>) {
    && b.fragmentId + EmptyBuffers(frags) == |frags|
    && (forall k :: 0 <= k < |b.tasks| ==> TaskOk(b.tasks[k], frags))
    && (forall j, k :: 0 <= j < k < |b.tasks| && k == j + 1 ==> b.tasks[j].end == b.tasks[k].start)
    && (if b.tasks == [] then frags == [] else b.tasks[0].start == 0 && b.tasks[|b.tasks| - 1].end == |frags|)
  }

  lemma TaskGrows(t: Task, frags: seq<Buffer>, more: seq<Buffer>)
    requires TaskOk(t, frags)
    ensures TaskOk(t, frags + more)
  {
    assert (frags + more)[..t.end] == frags[..t.end];
  }

  lemma EnterOk(b: Book, frags: seq<Buffer>, list: seq<Buffer>, size: nat)
    requires 0 < size && BookOk(b, frags)
    ensures BookOk(Enter(b, frags, list, size), frags + CutAll(list, size))
  {
    var f := CutAll(list, size);
    var b', all := Enter(b, frags, list, size), frags + f;
    CutAllCount(list, size);
    EmptyCut(list, size);
    EmptyAppend(frags, f);
    EmptyAtMost(all);
    assert all[..|all|] == all;
    forall k | 0 <= k < |b'.tasks| ensures TaskOk(b'.tasks[k], all) {
      if k < |b.tasks| { TaskGrows(b.tasks[k], frags, f); }
    }
  }

  lemma FirstEntry(b: Buffer, size: nat)
    requires 0 < size
    ensures Enter(NEW_BOOK, [], [b], size).tasks ==
            [Task(ShortSn(FragmentCount(b.length, size)), 0, |Cut(b, size)|, if b.length == 0 then 1 else 0)]
  {
    assert [b][1..] == [] && CutAll([b], size) == Cut(b, size) + CutAll([], size) == Cut(b, size);
    assert TotalCount([b], size) == FragmentCount(b.length, size) + TotalCount([], size);
    assert [] + Cut(b, size) == Cut(b, size);
    EmptyCutOne(b, size);
  }

  /** What `getStatus` says of a recorded task. */
  predicate Said(t: Task, tail: nat, head: nat) {
    Finished(t.lastSn, ShortSn(tail), ShortSn(head))
  }

  /** What it says is right. */
  predicate Right(t: Task, tail: nat, head: nat) {
    Said(t, tail, head) <==> t.end <= tail
  }

  /** No multiple of 2^24 lies between what a task was counted for and the queue's ends. */
  predicate OneBlock(t: Task, tail: nat, head: nat)
    requires t.skipped <= t.end
  {
    Block(t.end - t.skipped) == Block(tail) == Block(head)
  }

  /**
   Within one block a recorded task is reported finished exactly when all but its skipped
   last fragments are behind the tail, so wrongly exactly while the tail is among these.
   */
  lemma SaidIff(t: Task, frags: seq<Buffer>, tail: nat, head: nat)
    requires TaskOk(t, frags) && tail <= head && OneBlock(t, tail, head)
    ensures Said(t, tail, head) <==> t.end - t.skipped <= tail
    ensures Right(t, tail, head) <==> !(t.end - t.skipped <= tail < t.end)
  {
    BlockOrder(t.end - t.skipped, tail);
    BlockOrder(tail, head);
  }

  lemma EarlyBlock(i: nat)
    requires i < SN_SPACE
    ensures Block(i) == 0
  {}

  /**
   What `getStatus` tells of a task of a queue in order: right within one block except
   for skipped fragments, within one block as long as fewer than 2^24 were pushed, and
   without skipped fragments right exactly when `Truthful` says so.
   */
  ghost predicate Told(t: Task, frags: seq<Buffer>, tail: nat, head: nat) {
    && TaskOk(t, frags)
    && (OneBlock(t, tail, head) ==>
          && (Said(t, tail, head) <==> t.end - t.skipped <= tail)
          && (Right(t, tail, head) <==> !(t.end - t.skipped <= tail < t.end)))
    && (|frags| < SN_SPACE ==> OneBlock(t, tail, head))
    && (t.skipped == 0 && tail <= head < tail + SN_SPACE ==> (Right(t, tail, head) <==> Truthful(t.end, tail, head)))
  }

  lemma TaskTold(t: Task, frags: seq<Buffer>, tail: nat, head: nat)
    requires TaskOk(t, frags) && tail <= head <= |frags|
    ensures Told(t, frags, tail, head)
  {
    if OneBlock(t, tail, head) { SaidIff(t, frags, tail, head); }
    if head < tail + SN_SPACE { ReportedIff(t.end, tail, head); }
    if |frags| < SN_SPACE {
      EarlyBlock(tail);
      EarlyBlock(head);
      EarlyBlock(t.end - t.skipped);
    }
  }
}
