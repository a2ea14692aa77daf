/** The queues on top of the block list: one that knows the highest sequence number, and the request
    queue, which always keeps one hidden item in front. */
module Queues {
  import opened Common
  import opened BlockQueue
  import opened ConnectionModel
  import Printers

  class WaitableQueue<T> {
    const queue: ThreadSafeQueue<T>
    var highestSequence: int
    var blockingMode: bool
    ghost var Repr: set<object>

    ghost predicate Valid()
      reads this, Repr
      ensures Valid() ==> this in Repr
    {
      && this in Repr && queue in Repr && queue.Repr <= Repr && this !in queue.Repr
      && queue.Valid()
      && highestSequence == |queue.items| - 1
    }

    /** Everything pushed since the last reset. */
    ghost function Items(): seq<T>
      reads this, Repr
      requires Valid()
    {
      queue.items
    }

    ghost function FrontSeq(): (s: nat)
      reads this, Repr
      requires Valid()
      ensures s <= |Items()|
    {
      queue.frontSequenceNumber
    }

    ghost predicate Points(it: Iterator<T>)
      reads this, Repr
      requires Valid()
      ensures Points(it) ==> FrontSeq() <= it.seqNo <= |Items()|
    {
      queue.Points(it)
    }

    constructor (blockSize: nat)
      requires 0 < blockSize
      ensures Valid() && fresh(Repr) && Items() == [] && FrontSeq() == 0 && blockingMode
    {
      queue := new ThreadSafeQueue<T>(blockSize);
      highestSequence := -1;
      blockingMode := true;
      new;
      Repr := {this} + queue.Repr;
    }

    method Reset()
      requires Valid()
      modifies Repr
      ensures Valid() && fresh(Repr - old(Repr))
      ensures Items() == [] && FrontSeq() == 0 && blockingMode == old(blockingMode)
    {
      highestSequence := -1;
      queue.Reset();
      Repr := Repr + queue.Repr;
    }

    method EmplaceBack(x: T)
      requires Valid()
      modifies Repr
      ensures Valid() && fresh(Repr - old(Repr))
      ensures Items() == old(Items()) + [x] && FrontSeq() == old(FrontSeq()) && blockingMode == old(blockingMode)
      ensures forall it: Iterator<T> :: old(allocated(it) && Points(it)) ==> Points(it)
    {
      var seqNo := queue.EmplaceBack(x);
      highestSequence := seqNo;
      Repr := Repr + queue.Repr;
    }

    method PopFront()
      requires Valid() && FrontSeq() < |Items()|
      modifies Repr
      ensures Valid() && Repr == old(Repr)
      ensures Items() == old(Items()) && FrontSeq() == old(FrontSeq()) + 1 && blockingMode == old(blockingMode)
      ensures forall it: Iterator<T> ::
        old(allocated(it) && Points(it)) && old(FrontSeq()) < it.seqNo ==> Points(it)
    {
      var _ := queue.PopFront();
    }

    method SetBlockingMode(value: bool)
      requires Valid()
      modifies this`blockingMode
      ensures Valid() && blockingMode == value && Items() == old(Items()) && FrontSeq() == old(FrontSeq())
      ensures forall it: Iterator<T> :: old(allocated(it) && Points(it)) ==> Points(it)
    {
      blockingMode := value;
    }

    predicate ItemHasArrived(it: Iterator<T>)
      reads this, Repr
      requires Valid()
      ensures ItemHasArrived(it) <==> it.seqNo < |Items()|
    {
      highestSequence >= it.seqNo
    }

    function Begin(): (it: Iterator<T>)
      reads this, Repr
      requires Valid()
      ensures Points(it) && it.seqNo == FrontSeq()
    {
      queue.Begin()
    }

    function Item(it: Iterator<T>): (x: T)
      reads this, Repr
      requires Valid() && Points(it) && it.seqNo < |Items()|
      ensures x == Items()[it.seqNo]
    {
      queue.Item(it)
    }

    function Next(it: Iterator<T>): (r: Iterator<T>)
      reads this, Repr
      requires Valid() && Points(it) && it.seqNo < |Items()|
      ensures Points(r) && r.seqNo == it.seqNo + 1
    {
      queue.Next(it)
    }

    function Size(): (n: nat)
      reads this, Repr
      requires Valid()
      ensures n == |Items()| - FrontSeq()
    {
      queue.Size()
    }

    /** Blocking is not being enabled: a caller may ask if there is an item, or not wait for one. */
    method GetItemBlockOrNull(it: Iterator<T>) returns (item: Option<T>)
      requires Valid() && Points(it)
      requires it.seqNo < |Items()| || !blockingMode
      ensures item == if it.seqNo < |Items()| then Some(Items()[it.seqNo]) else None
    {
      if ItemHasArrived(it) { return Some(queue.Item(it)); }
      return None;
    }
  }

  /** The request that is hidden while nothing has been popped yet. It is never sent. */
  function Dummy(): Request {
    Request(NoCallback, Printers.Encoded(["dummy"]), 0)
  }

  /** A queue of pending requests that pops one item late: the front item is hidden. */
  class RequestQueue {
    const queue: WaitableQueue<Request>
    ghost var Repr: set<object>

    ghost predicate Valid()
      reads this, Repr
      ensures Valid() ==> this in Repr
    {
      && this in Repr && queue in Repr && queue.Repr <= Repr && this !in queue.Repr
      && queue.Valid()
      && queue.FrontSeq() < |queue.Items()|
    }

    ghost function Items(): seq<Request>
      reads this, Repr
      requires Valid()
    {
      queue.Items()
    }

    /** The sequence number of the hidden item. */
    ghost function FrontSeq(): (s: nat)
      reads this, Repr
      requires Valid()
      ensures s < |Items()|
    {
      queue.FrontSeq()
    }

    ghost predicate Points(it: Iterator<Request>)
      reads this, Repr
      requires Valid()
      ensures Points(it) ==> FrontSeq() <= it.seqNo <= |Items()|
    {
      queue.Points(it)
    }

    predicate ItemHasArrived(it: Iterator<Request>)
      reads this, Repr
      requires Valid()
      ensures ItemHasArrived(it) <==> it.seqNo < |Items()|
    {
      queue.ItemHasArrived(it)
    }

    function Item(it: Iterator<Request>): (x: Request)
      reads this, Repr
      requires Valid() && Points(it) && it.seqNo < |Items()|
      ensures x == Items()[it.seqNo]
    {
      queue.Item(it)
    }

    function Next(it: Iterator<Request>): (r: Iterator<Request>)
      reads this, Repr
      requires Valid() && Points(it) && it.seqNo < |Items()|
      ensures Points(r) && r.seqNo == it.seqNo + 1
    {
      queue.Next(it)
    }

    constructor ()
      ensures Valid() && fresh(Repr) && Items() == [Dummy()] && FrontSeq() == 0
    {
      queue := new WaitableQueue<Request>(5000);
      new;
      var buff := Printers.InitFromChunks(["dummy"]);
      queue.EmplaceBack(Request(NoCallback, buff[..], 0));
      Repr := {this} + queue.Repr;
    }

    method Reset()
      requires Valid()
      modifies Repr
      ensures Valid() && fresh(Repr - old(Repr))
      ensures Items() == [Dummy()] && FrontSeq() == 0
    {
      queue.Reset();
      var buff := Printers.InitFromChunks(["dummy"]);
      queue.EmplaceBack(Request(NoCallback, buff[..], 0));
      Repr := Repr + queue.Repr;
    }

    method EmplaceBack(x: Request)
      requires Valid()
      modifies Repr
      ensures Valid() && fresh(Repr - old(Repr))
      ensures Items() == old(Items()) + [x] && FrontSeq() == old(FrontSeq())
      ensures forall it: Iterator<Request> :: old(allocated(it) && Points(it)) ==> Points(it)
    {
      queue.EmplaceBack(x);
      Repr := Repr + queue.Repr;
    }

    /** Destroys the hidden item; the item behind it becomes the hidden one. */
    method PopFront()
      requires Valid() && FrontSeq() + 1 < |Items()|
      modifies Repr
      ensures Valid() && Repr == old(Repr)
      ensures Items() == old(Items()) && FrontSeq() == old(FrontSeq()) + 1
      ensures forall it: Iterator<Request> ::
        old(allocated(it) && Points(it)) && old(FrontSeq()) < it.seqNo ==> Points(it)
    {
      queue.PopFront();
    }

    /** The item behind the hidden one. */
    function Begin(): (it: Iterator<Request>)
      reads this, Repr
      requires Valid()
      ensures Points(it) && it.seqNo == FrontSeq() + 1
    {
      queue.Next(queue.Begin())
    }

    function Size(): (n: nat)
      reads this, Repr
      requires Valid()
      ensures n == |Items()| - FrontSeq() - 1
    {
      queue.Size() - 1
    }
  }
}
