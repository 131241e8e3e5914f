/** The circular doubly linked list of bio.c. */
module BufferList {
  import opened Bytes

  /** A cached block. The sleep lock is the flag locked. History: handed (has been given to a caller),
      touched (changed by the holder since it was last pinned or written) and stamp (when it was last
      released by its last user). */
  class Buf {
    var valid: bool
    var dirty: bool
    var dev: nat
    var blockno: nat
    var locked: bool
    var refcnt: nat
    var prev: Buf?
    var next: Buf?
    var data: Block
    ghost var handed: bool
    ghost var touched: bool
    ghost var stamp: nat

    constructor ()
      ensures !valid && !dirty && dev == 0 && blockno == 0 && !locked && refcnt == 0
      ensures !handed && !touched && stamp == 0
    {
      valid, dirty, dev, blockno, locked, refcnt, prev, next := false, false, 0, 0, false, 0, null, null;
      data := ZERO;
      handed, touched, stamp := false, false, 0;
    }
  }

  /** Once round the circle. */
  ghost function Chain(head: Buf, list: seq<Buf>): (c: seq<Buf>) {
    [head] + list + [head]
  }

  ghost predicate Distinct(head: Buf, list: seq<Buf>) {
    head !in list && forall i, j | 0 <= i < j < |list| :: list[i] != list[j]
  }

  ghost predicate Linked(head: Buf, list: seq<Buf>)
    reads head`prev, head`next, list`prev, list`next
  {
    var c := Chain(head, list);
    Distinct(head, list)
    && forall i | 0 <= i <= |list| :: c[i].next == c[i + 1] && c[i + 1].prev == c[i]
  }

  ghost function Without(list: seq<Buf>, k: nat): (r: seq<Buf>)
    requires k < |list|
  {
    list[..k] + list[k + 1..]
  }

  /** Puts a buffer between the head and the most recently used one. */
  method PushFront(head: Buf, b: Buf, ghost list: seq<Buf>)
    requires Linked(head, list) && b != head && b !in list
    modifies head`next, head`prev, b`next, b`prev, list`prev
    ensures Linked(head, [b] + list)
  {
    ghost var c, d := Chain(head, list), Chain(head, [b] + list);
    assert c[0].next == c[1] && c[1].prev == c[0];
    b.next := head.next;
    b.prev := head;
    head.next.prev := b;
    head.next := b;
    assert d[0] == head && d[1] == b && forall i | 2 <= i < |d| :: d[i] == c[i - 1];
    forall i | 0 <= i <= |[b] + list|
      ensures d[i].next == d[i + 1] && d[i + 1].prev == d[i]
    {
      if i >= 2 {
        assert c[i - 1].next == c[i] && c[i].prev == c[i - 1];
      }
    }
  }

  /** Takes the buffer at position k out of the circle. */
  method Unlink(head: Buf, b: Buf, ghost list: seq<Buf>, ghost k: nat)
    requires Linked(head, list) && k < |list| && list[k] == b
    modifies head`next, head`prev, list`next, list`prev
    ensures Linked(head, Without(list, k)) && b !in Without(list, k)
  {
    ghost var rest := Without(list, k);
    ghost var c, d := Chain(head, list), Chain(head, rest);
    assert c[k + 1] == b;
    assert c[k].next == c[k + 1] && c[k + 1].prev == c[k] && c[k + 1].next == c[k + 2] && c[k + 2].prev == c[k + 1];
    b.next.prev := b.prev;
    b.prev.next := b.next;
    assert forall i | 0 <= i < |d| :: d[i] == if i <= k then c[i] else c[i + 1];
    assert forall i | 1 <= i <= |list| :: c[i] == list[i - 1];
    forall i | 0 <= i <= |rest|
      ensures d[i].next == d[i + 1] && d[i + 1].prev == d[i]
    {
      var j := if i < k then i else i + 1;
      assert old(c[j].next) == c[j + 1] && old(c[j + 1].prev) == c[j];
    }
  }

  /** Most recently used first. */
  ghost function ToFront(list: seq<Buf>, k: nat): (r: seq<Buf>)
    requires k < |list|
  {
    [list[k]] + Without(list, k)
  }

  method MoveToFront(head: Buf, b: Buf, ghost list: seq<Buf>, ghost k: nat)
    requires Linked(head, list) && k < |list| && list[k] == b
    modifies head`next, head`prev, list`next, list`prev
    ensures Linked(head, ToFront(list, k))
  {
    Unlink(head, b, list, k);
    PushFront(head, b, Without(list, k));
  }
}
