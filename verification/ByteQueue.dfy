/** labuart/queue.c: a singly linked byte queue with explicit allocation and release of its items. */
module ByteQueue {
  import opened Bytes

  /** `queue_item_t`. An item may be read or written only while it is live, that is, between malloc and free. */
  class Item {
    var byte: Byte
    var next: Item?
    ghost var live: bool

    constructor (byte: Byte)
      ensures live && this.byte == byte && next == null
    {
      this.byte, next, live := byte, null, true;
    }

    function ReadByte(): (byte: Byte)
      requires live
      reads this
    {
      byte
    }

    function ReadNext(): (item: Item?)
      requires live
      reads this
    {
      next
    }

    method Link(item: Item)
      requires live
      modifies this`next
      ensures next == item
    {
      next := item;
    }

    /** `free`, allowed once. */
    ghost method Free()
      requires live
      modifies this`live
      ensures !live
    {
      live := false;
    }
  }

  lemma {:induction false} CountDistinct(items: seq<Item>)
    requires forall i, j | 0 <= i < j < |items| :: items[i] != items[j]
    ensures |set item | item in items| == |items|
  {
    if items != [] {
      var front, last := items[..|items| - 1], items[|items| - 1];
      CountDistinct(front);
      assert (set item | item in items) == (set item | item in front) + {last};
    }
  }

  /** `queue_t`. When the queue is empty, `back` may still hold the last item released: nothing is said of it. */
  class Queue {
    var front: Item?
    var back: Item?
    /** The queue as a sequence of bytes. */
    ghost var contents: seq<Byte>
    ghost var live: bool
    ghost var items: seq<Item>
    ghost var released: set<Item>
    ghost var Repr: set<object>

    ghost predicate Valid()
      reads this, Repr
      ensures Valid() ==> this in Repr
    {
      && live && this in Repr && released <= Repr
      && (forall i | 0 <= i < |items| :: items[i] in Repr && items[i] !in released)
      && (forall i, j | 0 <= i < j < |items| :: items[i] != items[j])
      && (items == [] ==> front == null)
      && (items != [] ==> front == items[0] && back == items[|items| - 1])
      && |contents| == |items|
      && (forall i | 0 <= i < |items| :: items[i].live && items[i].byte == contents[i])
      && (forall i | 0 <= i < |items| - 1 :: items[i].next == items[i + 1])
      && (items != [] ==> items[|items| - 1].next == null)
      && (forall item | item in released :: !item.live)
    }

    /** Every item ever allocated for this queue: each is either queued and live, or released. */
    ghost function Allocated(): (owned: set<Item>)
      reads this
    {
      released + set item | item in items
    }

    /** One item for each queued byte. */
    lemma AllocatedCount()
      requires Valid()
      ensures |Allocated()| == |released| + |contents|
    {
      CountDistinct(items);
      assert released !! set item | item in items;
    }

    constructor ()
      ensures Valid() && fresh(Repr) && contents == [] && Allocated() == {}
    {
      front, back := null, null;
      contents, live, items, released, Repr := [], true, [], {}, {this};
    }

    method Push(byte: Byte)
      requires Valid()
      modifies Repr
      ensures Valid() && fresh(Repr - old(Repr))
      ensures contents == old(contents) + [byte]
      ensures released == old(released) && old(Allocated()) <= Allocated()
    {
      var item := new Item(byte);
      if front == null {
        front := item;
      } else {
        back.Link(item);
      }
      back := item;
      contents, items, Repr := contents + [byte], items + [item], Repr + {item};
    }

    method Front() returns (byte: Byte)
      requires Valid()
      ensures byte == if contents == [] then 0 else contents[0]
    {
      if front == null {
        return 0;
      }
      return front.ReadByte();
    }

    method Pop()
      requires Valid()
      modifies Repr
      ensures Valid() && Repr == old(Repr)
      ensures contents == if old(contents) == [] then [] else old(contents)[1..]
      ensures Allocated() == old(Allocated())
      ensures released == old(released) + if old(items) == [] then {} else {old(items)[0]}
    {
      if front == null {
        return;
      }
      var item := front;
      front := item.ReadNext();
      contents, items, released := contents[1..], items[1..], released + {item};
      item.Free();
    }

    method Empty() returns (empty: bool)
      requires Valid()
      ensures empty <==> contents == []
    {
      empty := front == null;
    }

    method Clean()
      requires Valid()
      modifies Repr
      ensures Valid() && Repr == old(Repr) && contents == []
      ensures Allocated() == released == old(Allocated())
    {
      var empty := Empty();
      while !empty
        invariant Valid() && Repr == old(Repr) && Allocated() == old(Allocated())
        invariant empty <==> contents == []
        decreases |contents|
      {
        Pop();
        empty := Empty();
      }
    }

    /** Releases every item and the queue itself; no operation can follow, since each requires a valid queue. */
    method Delete()
      requires Valid()
      modifies Repr
      ensures !live && released == old(Allocated())
      ensures forall item | item in released :: !item.live
    {
      Clean();
      live := false;
    }
  }

  // ----- Every sequence of operations ----------

  datatype Op = PushOp(byte: Byte) | FrontOp | PopOp | EmptyOp | CleanOp

  datatype Reply = Nothing | AByte(byte: Byte) | ABool(empty: bool)

  /** What an operation answers and leaves, on a sequence. */
  function Answer(s: seq<Byte>, op: Op): (r: (Reply, seq<Byte>)) {
    match op
    case PushOp(b) => (Nothing, s + [b])
    case FrontOp => (AByte(if s == [] then 0 else s[0]), s)
    case PopOp => (Nothing, if s == [] then [] else s[1..])
    case EmptyOp => (ABool(s == []), s)
    case CleanOp => (Nothing, [])
  }

  function After(ops: seq<Op>): (bytes: seq<Byte>) {
    if ops == [] then [] else Answer(After(ops[..|ops| - 1]), ops[|ops| - 1]).1
  }

  function Replies(ops: seq<Op>): (replies: seq<Reply>) {
    if ops == [] then []
    else Replies(ops[..|ops| - 1]) + [Answer(After(ops[..|ops| - 1]), ops[|ops| - 1]).0]
  }

  function Pushed(ops: seq<Op>): (bytes: seq<Byte>) {
    if ops == [] then []
    else
      var op := ops[|ops| - 1];
      Pushed(ops[..|ops| - 1]) + if op.PushOp? then [op.byte] else []
  }

  /** One operation on the linked queue, as the sequence model has it. */
  method Perform(q: Queue, op: Op) returns (reply: Reply)
    requires q.Valid()
    modifies q.Repr
    ensures q.Valid() && fresh(q.Repr - old(q.Repr))
    ensures (reply, q.contents) == Answer(old(q.contents), op)
    ensures |q.Allocated()| == |old(q.Allocated())| + if op.PushOp? then 1 else 0
  {
    reply := Nothing;
    q.AllocatedCount();
    match op {
      case PushOp(b) =>
        q.Push(b);
        q.AllocatedCount();
      case FrontOp =>
        var b := q.Front();
        reply := AByte(b);
      case PopOp =>
        q.Pop();
      case EmptyOp =>
        var e := q.Empty();
        reply := ABool(e);
      case CleanOp =>
        q.Clean();
    }
  }

  /**
   * Under every sequence of operations, from creation to deletion, the linked queue answers like a sequence; in the end
   * as many items have been allocated as bytes were pushed, and every one of them is released.
   */
  method Replay(ops: seq<Op>) returns (replies: seq<Reply>, ghost q: Queue)
    ensures replies == Replies(ops)
    ensures fresh(q) && !q.live && |q.released| == |Pushed(ops)|
    ensures forall item | item in q.released :: !item.live
  {
    var queue := new Queue();
    q := queue;
    replies := [];
    for i := 0 to |ops|
      invariant q.Valid() && fresh(q.Repr)
      invariant q.contents == After(ops[..i]) && replies == Replies(ops[..i])
      invariant |q.Allocated()| == |Pushed(ops[..i])|
    {
      var reply := Perform(queue, ops[i]);
      replies := replies + [reply];
      assert ops[..i + 1][..i] == ops[..i];
    }
    assert ops[..|ops|] == ops;
    queue.Delete();
  }

  /** The bytes that were at the front when they were popped or cleaned away, in that order. */
  function Removed(ops: seq<Op>): (bytes: seq<Byte>) {
    if ops == [] then []
    else
      var s := After(ops[..|ops| - 1]);
      Removed(ops[..|ops| - 1]) + match ops[|ops| - 1]
                                  case PopOp => if s == [] then [] else [s[0]]
                                  case CleanOp => s
                                  case _ => []
  }

  /** First in, first out: what left and what remains are the pushed bytes in order. */
  lemma {:induction false} FirstInFirstOut(ops: seq<Op>)
    ensures Removed(ops) + After(ops) == Pushed(ops)
  {
    if ops != [] {
      FirstInFirstOut(ops[..|ops| - 1]);
    }
  }
}
