/** The block-list queue: items in a singly linked list of fixed-size blocks, addressed by
    sequence number, with iterators that outlive pushes and pops. */
module BlockQueue {
  import opened Common

  /** A block of raw memory, laid out inline: a slot is None while no object is constructed in it. */
  class MemoryBlock<T> {
    var next: MemoryBlock?<T>
    var contents: seq<Option<T>>
    /** How many blocks came before this one. */
    ghost const index: nat

    constructor (size: nat, ghost index: nat)
      ensures next == null && this.index == index
      ensures |contents| == size && forall p :: 0 <= p < size ==> contents[p] == None
    {
      this.next := null;
      this.index := index;
      this.contents := seq(size, _ => None);
    }
  }

  /** A position in the queue. It stays usable as long as its item is not popped. */
  datatype Iterator<!T> = Iterator(block: MemoryBlock?<T>, pos: nat, seqNo: nat)

  lemma BlocksDoNotOverlap(i: nat, j: nat, size: nat)
    requires i < j
    ensures i * size + size <= j * size
  {
    if i + 1 < j {
      BlocksDoNotOverlap(i, j - 1, size);
    }
  }

  lemma NextProduct(i: nat, size: nat)
    ensures (i + 1) * size == i * size + size
  {}

  class ThreadSafeQueue<T> {
    const blockSize: nat
    var root: MemoryBlock<T>
    var lastBlock: MemoryBlock<T>
    var firstBlockNextToPop: nat
    var lastBlockNextPos: nat
    var nextSequenceNumber: nat
    var frontSequenceNumber: nat
    /** Everything pushed since the last reset: the item with sequence number s is items[s]. */
    ghost var items: seq<T>
    /** The live blocks, from root to lastBlock. */
    ghost var blocks: seq<MemoryBlock<T>>
    ghost var Repr: set<object>

    /** What slot memory of sequence number s must hold: the queued item, or nothing. */
    ghost function SlotOf(s: nat): Option<T>
      reads this`frontSequenceNumber, this`items
    {
      if frontSequenceNumber <= s < |items| then Some(items[s]) else None
    }

    /** Every slot of b holds what its sequence number calls for. */
    ghost predicate Filled(b: MemoryBlock<T>)
      reads b`contents, this`frontSequenceNumber, this`items
    {
      && |b.contents| == blockSize
      && forall p :: 0 <= p < blockSize ==> b.contents[p] == SlotOf(b.index * blockSize + p)
    }

    ghost predicate BlockOk(i: nat)
      reads this, Repr
      requires i < |blocks|
    {
      && blocks[i] in Repr
      && blocks[i].index == blocks[0].index + i
      && blocks[i].next == (if i + 1 < |blocks| then blocks[i + 1] else null)
      && Filled(blocks[i])
    }

    ghost predicate BlocksOk()
      reads this, Repr
    {
      && this in Repr && 0 < blockSize && 0 < |blocks|
      && root == blocks[0] && lastBlock == blocks[|blocks| - 1]
      && (forall i :: 0 <= i < |blocks| ==> BlockOk(i))
      && firstBlockNextToPop < blockSize && lastBlockNextPos <= blockSize
      && root.index <= lastBlock.index
      && frontSequenceNumber == root.index * blockSize + firstBlockNextToPop
      && nextSequenceNumber == lastBlock.index * blockSize + lastBlockNextPos
      && frontSequenceNumber <= nextSequenceNumber == |items|
    }

    ghost predicate Valid()
      reads this, Repr
      ensures Valid() ==> this in Repr
    {
      BlocksOk() && lastBlockNextPos < blockSize
    }

    /** it stands at its sequence number, which is not popped (it may be the next one to arrive). */
    ghost predicate Points(it: Iterator<T>)
      reads this
    {
      && it.block != null && it.pos < blockSize
      && it.block.index * blockSize + it.pos == it.seqNo
      && frontSequenceNumber <= it.seqNo <= nextSequenceNumber
      && exists i :: 0 <= i < |blocks| && blocks[i] == it.block
    }

    constructor (blockSize: nat)
      requires 0 < blockSize
      ensures Valid() && fresh(Repr)
      ensures this.blockSize == blockSize
      ensures items == [] && frontSequenceNumber == 0
    {
      this.blockSize := blockSize;
      var block := new MemoryBlock<T>(blockSize, 0);
      root, lastBlock := block, block;
      firstBlockNextToPop, lastBlockNextPos := 0, 0;
      nextSequenceNumber, frontSequenceNumber := 0, 0;
      items, blocks := [], [block];
      Repr := {this, block};
    }

    method PopAll()
      requires Valid()
      modifies Repr
      ensures Valid() && Repr == old(Repr)
    {
      hide BlockOk;
      while nextSequenceNumber != frontSequenceNumber
        invariant Valid() && Repr == old(Repr)
        decreases nextSequenceNumber - frontSequenceNumber
      {
        var _ := PopFront();
      }
    }

    method Reset()
      requires Valid()
      modifies Repr
      ensures Valid() && fresh(Repr - old(Repr))
      ensures items == [] && frontSequenceNumber == 0
    {
      PopAll();
      frontSequenceNumber, nextSequenceNumber := 0, 0;
      firstBlockNextToPop, lastBlockNextPos := 0, 0;
      root := new MemoryBlock<T>(blockSize, 0);
      lastBlock := root;
      items, blocks := [], [root];
      Repr := Repr + {root};
      EmptyIsFilled(root);
      hide Filled;
      assert BlockOk(0);
    }

    /** Constructs an item at the end. Iterators keep their place. */
    method EmplaceBack(x: T) returns (seqNo: nat)
      requires Valid()
      modifies Repr
      ensures Valid() && fresh(Repr - old(Repr))
      ensures seqNo == |old(items)| && items == old(items) + [x]
      ensures frontSequenceNumber == old(frontSequenceNumber)
      ensures forall it: Iterator<T> :: old(allocated(it)) && old(Points(it)) ==> Points(it)
    {
      ghost var last := |blocks| - 1;
      assert BlockOk(last);
      lastBlock.contents := lastBlock.contents[lastBlockNextPos := Some(x)];
      lastBlockNextPos := lastBlockNextPos + 1;
      items := items + [x];
      seqNo := nextSequenceNumber;
      nextSequenceNumber := nextSequenceNumber + 1;
      forall i | 0 <= i < |blocks| ensures BlockOk(i) {
        assert old(BlockOk(i));
        if i < last { BlocksDoNotOverlap(blocks[i].index, lastBlock.index, blockSize); }
      }
      if lastBlockNextPos == blockSize {
        AllocateBlock();
      }
      assert forall i :: 0 <= i < |old(blocks)| ==> blocks[i] == old(blocks)[i];
    }

    lemma EmptyIsFilled(b: MemoryBlock<T>)
      requires |items| <= b.index * blockSize && |b.contents| == blockSize
      requires forall p :: 0 <= p < blockSize ==> b.contents[p] == None
      ensures Filled(b)
    {}

    method AllocateBlock()
      requires BlocksOk() && lastBlockNextPos == blockSize
      modifies this`lastBlock, this`lastBlockNextPos, this`blocks, this`Repr, lastBlock`next
      ensures Valid() && fresh(Repr - old(Repr))
      ensures old(blocks) <= blocks
    {
      ghost var last := |blocks| - 1;
      assert BlockOk(last);
      NextProduct(lastBlock.index, blockSize);
      var block := new MemoryBlock<T>(blockSize, lastBlock.index + 1);
      EmptyIsFilled(block);
      hide SlotOf, Filled;
      lastBlock.next := block;
      lastBlockNextPos := 0;
      lastBlock := lastBlock.next;
      blocks := blocks + [block];
      Repr := Repr + {block};
      forall i | 0 <= i < |blocks| ensures BlockOk(i) {
        if i <= last { assert old(BlockOk(i)); }
      }
    }

    /** Destroys the front item. Iterators behind it keep their place. */
    method PopFront() returns (seqNo: nat)
      requires Valid() && frontSequenceNumber < nextSequenceNumber
      modifies Repr
      ensures Valid() && Repr == old(Repr)
      ensures items == old(items)
      ensures seqNo == old(frontSequenceNumber) && frontSequenceNumber == seqNo + 1
      ensures forall it: Iterator<T> :: old(allocated(it)) && old(Points(it)) && seqNo < it.seqNo ==> Points(it)
    {
      assert BlockOk(0);
      root.contents := root.contents[firstBlockNextToPop := None];
      firstBlockNextToPop := firstBlockNextToPop + 1;
      seqNo := frontSequenceNumber;
      frontSequenceNumber := frontSequenceNumber + 1;
      forall i | 0 <= i < |blocks| ensures BlockOk(i) {
        assert old(BlockOk(i));
        if i > 0 { BlocksDoNotOverlap(root.index, blocks[i].index, blockSize); }
      }
      if firstBlockNextToPop == blockSize {
        NextProduct(root.index, blockSize);
        RemoveRoot();
        forall i | 0 < i < |old(blocks)| ensures old(blocks)[i] == blocks[i - 1] {}
      }
    }

    method RemoveRoot()
      requires this in Repr && 0 < blockSize == firstBlockNextToPop && 0 < |blocks|
      requires root == blocks[0] && lastBlock == blocks[|blocks| - 1]
      requires forall i :: 0 <= i < |blocks| ==> BlockOk(i)
      requires frontSequenceNumber == root.index * blockSize + blockSize
      requires nextSequenceNumber == lastBlock.index * blockSize + lastBlockNextPos && lastBlockNextPos < blockSize
      requires frontSequenceNumber <= nextSequenceNumber == |items|
      modifies this`root, this`blocks, this`firstBlockNextToPop
      ensures Valid()
      ensures blocks == old(blocks)[1..]
    {
      assert BlockOk(0);
      assert BlockOk(|blocks| - 1);
      assert |blocks| > 1;
      assert BlockOk(1);
      hide Filled, SlotOf;
      root := root.next;
      blocks := blocks[1..];
      firstBlockNextToPop := 0;
      forall i | 0 <= i < |blocks| ensures BlockOk(i) {
        assert old(BlockOk(i + 1));
      }
    }

    method Front() returns (x: T)
      requires Valid() && frontSequenceNumber < nextSequenceNumber
      ensures x == items[frontSequenceNumber]
    {
      assert BlockOk(0);
      x := root.contents[firstBlockNextToPop].value;
    }

    function Begin(): (it: Iterator<T>)
      reads this, Repr
      requires Valid()
      ensures Points(it) && it.seqNo == frontSequenceNumber
    {
      assert BlockOk(0);
      Iterator(root, firstBlockNextToPop, frontSequenceNumber)
    }

    /** An iterator reads exactly the item that was pushed with its sequence number. */
    function Item(it: Iterator<T>): (x: T)
      reads this, Repr
      requires Valid() && Points(it) && it.seqNo < nextSequenceNumber
      ensures x == items[it.seqNo]
    {
      assert forall i :: 0 <= i < |blocks| && blocks[i] == it.block ==> BlockOk(i);
      it.block.contents[it.pos].value
    }

    function Next(it: Iterator<T>): (r: Iterator<T>)
      reads this, Repr
      requires Valid() && Points(it) && it.seqNo < nextSequenceNumber
      ensures Points(r) && r.seqNo == it.seqNo + 1
    {
      NextSlot(it);
      if it.pos + 1 == blockSize then Iterator(it.block.next, 0, it.seqNo + 1)
      else Iterator(it.block, it.pos + 1, it.seqNo + 1)
    }

    /** Behind the last slot of a block that is not the last one there is another block. */
    lemma NextSlot(it: Iterator<T>)
      requires Valid() && Points(it) && it.seqNo < nextSequenceNumber
      ensures it.block in Repr
      ensures it.pos + 1 == blockSize ==> Points(Iterator(it.block.next, 0, it.seqNo + 1))
    {
      var i :| 0 <= i < |blocks| && blocks[i] == it.block;
      assert BlockOk(i);
      if it.pos + 1 == blockSize {
        assert BlockOk(|blocks| - 1);
        assert i + 1 < |blocks|;
        assert BlockOk(i + 1);
        NextProduct(it.block.index, blockSize);
      }
    }

    function Size(): nat
      reads this
      requires frontSequenceNumber <= nextSequenceNumber
    {
      nextSequenceNumber - frontSequenceNumber
    }
  }
}
