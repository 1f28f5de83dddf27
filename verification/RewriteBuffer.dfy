/** The buffer that collects what is logged while a child rewrites the log: a list of fixed-size
    blocks, appended to at the tail and sent to the child from the head. A char is a byte. */
module RewriteBuffer {

  /** A block of `used + free` bytes, of which the first `used` hold data. */
  datatype Block = Block(used: nat, free: nat, buf: string)

  ghost predicate Sound(b: Block, size: nat) {
    |b.buf| == size && b.used + b.free == size
  }

  ghost predicate AllSound(blocks: seq<Block>, size: nat) {
    forall i :: 0 <= i < |blocks| ==> Sound(blocks[i], size)
  }

  function Data(b: Block): string {
    if b.used <= |b.buf| then b.buf[..b.used] else b.buf
  }

  /** The bytes a list of blocks holds, in order. */
  ghost function Pending(blocks: seq<Block>): string {
    if blocks == [] then "" else Data(blocks[0]) + Pending(blocks[1..])
  }

  lemma {:induction false} PendingConcat(a: seq<Block>, b: seq<Block>)
    ensures Pending(a + b) == Pending(a) + Pending(b)
  {
    if a == [] {
      assert a + b == b;
    } else {
      assert (a + b)[1..] == a[1..] + b;
      PendingConcat(a[1..], b);
    }
  }

  lemma PendingOne(b: Block)
    ensures Pending([b]) == Data(b)
  {
    assert Pending([b]) == Data(b) + Pending([]);
  }

  /** Copy s[..k] behind the data. */
  function Fill(b: Block, s: string, k: nat): Block
    requires k <= b.free && k <= |s| && b.used + b.free <= |b.buf|
  {
    Block(b.used + k, b.free - k, b.buf[..b.used] + s[..k] + b.buf[b.used + k..])
  }

  /** Move the data n bytes to the front, over what was sent. */
  function Consume(b: Block, n: nat): Block
    requires n <= b.used <= |b.buf|
  {
    Block(b.used - n, b.free + n, b.buf[n..b.used] + b.buf[b.used - n..])
  }

  lemma FillIs(b: Block, s: string, k: nat, size: nat)
    requires Sound(b, size) && k <= b.free && k <= |s|
    ensures Sound(Fill(b, s, k), size) && Data(Fill(b, s, k)) == Data(b) + s[..k]
  {
  }

  lemma ConsumeIs(b: Block, n: nat, size: nat)
    requires Sound(b, size) && n <= b.used
    ensures Sound(Consume(b, n), size) && Data(b) == b.buf[..n] + Data(Consume(b, n))
  {
  }

  /** Filling the last block appends. */
  lemma FillLast(blocks: seq<Block>, s: string, k: nat, size: nat)
    requires AllSound(blocks, size) && blocks != [] && k <= blocks[|blocks| - 1].free && k <= |s|
    ensures var filled := blocks[|blocks| - 1 := Fill(blocks[|blocks| - 1], s, k)];
            AllSound(filled, size) && Pending(filled) + s[k..] == Pending(blocks) + s
  {
    hide Pending, Data, Fill;
    var n := |blocks| - 1;
    var b := blocks[n];
    FillIs(b, s, k, size);
    assert s == s[..k] + s[k..];
    assert blocks == blocks[..n] + [b];
    assert blocks[n := Fill(b, s, k)] == blocks[..n] + [Fill(b, s, k)];
    PendingConcat(blocks[..n], [b]);
    PendingConcat(blocks[..n], [Fill(b, s, k)]);
    PendingOne(b);
    PendingOne(Fill(b, s, k));
  }

  /** What is taken from the first block comes first. */
  lemma SendFirst(blocks: seq<Block>, n: nat, size: nat)
    requires AllSound(blocks, size) && blocks != [] && n <= blocks[0].used
    ensures var sent := blocks[0 := Consume(blocks[0], n)];
            AllSound(sent, size) && Pending(blocks) == blocks[0].buf[..n] + Pending(sent)
  {
    hide Data, Consume;
    ConsumeIs(blocks[0], n, size);
    assert blocks[0 := Consume(blocks[0], n)][1..] == blocks[1..];
  }

  lemma Regroup(a: string, b: string, c: string)
    ensures a + (b + c) == a + b + c && a + b <= a + b + c
  {
  }

  class Buffer {
    const size: nat
    var blocks: seq<Block>

    /** The data pipe to the child, as far as the child has not read it. */
    var pipe: string
    var stop: bool

    ghost predicate Valid()
      reads this
    {
      size > 0 && AllSound(blocks, size)
    }

    ghost function Contents(): string
      reads this
    {
      Pending(blocks)
    }

    constructor (blockSize: nat)
      requires blockSize > 0
      ensures Valid() && size == blockSize && Contents() == "" && pipe == "" && !stop
    {
      size, blocks, pipe, stop := blockSize, [], "", false;
    }

    method Reset()
      requires Valid()
      modifies this`blocks
      ensures Valid() && Contents() == ""
    {
      blocks := [];
    }

    method Size() returns (total: nat)
      requires Valid()
      ensures total == |Contents()|
    {
      total := 0;
      var i := 0;
      while i < |blocks|
        invariant 0 <= i <= |blocks| && total + |Pending(blocks[i..])| == |Contents()|
      {
        assert blocks[i..][1..] == blocks[i + 1..];
        total := total + blocks[i].used;
        i := i + 1;
      }
    }

    /** Append data, filling the last block and then allocating more. */
    method Append(data: string)
      requires Valid()
      modifies this`blocks
      ensures Valid() && Contents() == old(Contents()) + data
    {
      hide Pending, Data, AllSound;
      var s := data;
      while s != ""
        invariant Valid() && Contents() + s == old(Contents()) + data
        decreases |s|, if blocks != [] && blocks[|blocks| - 1].free > 0 then 0 else 1
      {
        if blocks != [] {
          var n := |blocks| - 1;
          LastSound(blocks, size);
          var thislen := if blocks[n].free < |s| then blocks[n].free else |s|;
          if thislen != 0 {
            FillLast(blocks, s, thislen, size);
            blocks := blocks[n := Fill(blocks[n], s, thislen)];
            s := s[thislen..];
          }
        }
        if s != "" {
          NewBlock(blocks, size);
          blocks := blocks + [Block(0, size, seq(size, _ => '\0'))];
        }
      }
    }

    /** The writable handler: blocks go down the pipe until a write fails or would block, nothing
        is left, or the child asked to stop. `results` are what the write calls return. */
    method ChildWriteDiffData(results: seq<int>)
      requires Valid()
      modifies this`blocks, this`pipe
      ensures Valid() && pipe + Contents() == old(pipe + Contents()) && old(pipe) <= pipe
      ensures stop ==> pipe == old(pipe)
      ensures !stop && |results| > |old(Contents())| && (forall i :: 0 <= i < |results| ==> results[i] > 0) ==>
          Contents() == ""
    {
      hide Pending, Data, Consume;
      EmptyBlock(Block(0, 0, ""));
      var k := 0;
      while true
        invariant Valid() && 0 <= k <= |results|
        invariant pipe + Contents() == old(pipe + Contents()) && old(pipe) <= pipe
        invariant stop ==> pipe == old(pipe)
        invariant k + |Contents()| <= |old(Contents())|
        decreases |results| - k, |blocks|
      {
        if stop || blocks == [] {
          return;
        }
        var block := blocks[0];
        if block.used > 0 {
          if k == |results| || results[k] <= 0 {
            return;
          }
          var nwritten := if results[k] < block.used then results[k] else block.used;
          k := k + 1;
          SendFirst(blocks, nwritten, size);
          ghost var sent, rest := block.buf[..nwritten], blocks[0 := Consume(block, nwritten)];
          assert pipe + (sent + Pending(rest)) == (pipe + sent) + Pending(rest);
          pipe := pipe + block.buf[..nwritten];
          block := Consume(block, nwritten);
          blocks := blocks[0 := block];
        }
        if block.used == 0 {
          DropEmpty(blocks);
          blocks := blocks[1..];
        }
      }
    }

    /** Write all blocks to a file, giving up at the first short write. */
    method Write(results: seq<int>) returns (ok: bool, written: string)
      requires Valid()
      ensures written <= Contents() && (ok ==> written == Contents())
      ensures |results| >= |blocks| && (forall i :: 0 <= i < |results| ==> results[i] >= size) ==> ok
    {
      hide Pending, Data;
      ok, written := false, "";
      var i, k := 0, 0;
      assert blocks[0..] == blocks;
      while i < |blocks|
        invariant 0 <= i <= |blocks| && 0 <= k <= i && written + Pending(blocks[i..]) == Contents()
      {
        var block := blocks[i];
        PendingStep(blocks, i);
        DataIs(block, size);
        Regroup(written, Data(block), Pending(blocks[i + 1..]));
        if block.used != 0 {
          if k >= |results| || results[k] < block.used {
            if k < |results| && results[k] > 0 {
              assert written + block.buf[..results[k]] <= written + Data(block);
              written := written + block.buf[..results[k]];
            }
            return;
          }
          written := written + block.buf[..block.used];
          k := k + 1;
        }
        i := i + 1;
      }
      EmptyBlock(Block(0, 0, ""));
      assert blocks[i..] == [];
      ok := true;
    }
  }

  lemma DataIs(b: Block, size: nat)
    requires Sound(b, size)
    ensures Data(b) == b.buf[..b.used]
  {
  }

  lemma LastSound(blocks: seq<Block>, size: nat)
    requires AllSound(blocks, size) && blocks != []
    ensures Sound(blocks[|blocks| - 1], size)
  {
  }

  lemma NewBlock(blocks: seq<Block>, size: nat)
    requires AllSound(blocks, size)
    ensures var more := blocks + [Block(0, size, seq(size, _ => '\0'))];
            AllSound(more, size) && Pending(more) == Pending(blocks)
  {
    var b := Block(0, size, seq(size, _ => '\0'));
    PendingConcat(blocks, [b]);
    EmptyBlock(b);
  }

  lemma EmptyBlock(b: Block)
    requires b.used == 0
    ensures Pending([b]) == "" && Pending([]) == ""
  {
  }

  lemma DropEmpty(blocks: seq<Block>)
    requires blocks != [] && blocks[0].used == 0
    ensures Pending(blocks) == Pending(blocks[1..])
  {
    assert Data(blocks[0]) == "";
  }

  lemma PendingStep(blocks: seq<Block>, i: nat)
    requires i < |blocks|
    ensures Pending(blocks[i..]) == Data(blocks[i]) + Pending(blocks[i + 1..])
  {
    assert blocks[i..][1..] == blocks[i + 1..];
  }
}
