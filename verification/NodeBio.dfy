/**
 `NodeBIO` of src/node_crypto_bio.cc: a byte queue over a circular list of fixed-size
 blocks. `read_head_` points at the block with the oldest byte, `write_head_` at the block
 being filled; blocks already drained stay in the ring behind `read_head_`.
 */
module NodeBio {
  import opened Prelude

  const BUFFER_LENGTH: nat := 16 * 1024

  type Byte = x: int | 0 <= x < 256

  class Block {
    var readPos: nat
    var writePos: nat
    var next: Block?
    const data: array<Byte>

    constructor ()
      ensures readPos == 0 && writePos == 0 && next == null
      ensures fresh(data) && data.Length == BUFFER_LENGTH
    {
      readPos, writePos, next := 0, 0, null;
      data := new Byte[BUFFER_LENGTH];
    }

    /** The block's unread bytes are `bytes`. */
    ghost predicate Holds(bytes: seq<Byte>)
      reads this`readPos, this`writePos, data
    {
      data.Length == BUFFER_LENGTH && readPos <= writePos <= BUFFER_LENGTH && data[readPos..writePos] == bytes
    }

    /** `memcpy` behind the bytes in the block. */
    method Append(src: seq<Byte>, offset: nat, count: nat, ghost bytes: seq<Byte>)
      requires Holds(bytes) && offset + count <= |src| && writePos + count <= BUFFER_LENGTH
      modifies this`writePos, data
      ensures writePos == old(writePos) + count
      ensures Holds(bytes + src[offset..offset + count])
    {
      var at := writePos;
      forall k | 0 <= k < count {
        data[at + k] := src[offset + k];
      }
      writePos := at + count;
      assert data[readPos..at] == bytes;
      assert data[at..at + count] == src[offset..offset + count];
      assert data[readPos..at + count] == data[readPos..at] + data[at..at + count];
    }

    /** `memcpy` of the oldest bytes in the block, unless there is nowhere to copy them to. */
    method Take(out: array?<Byte>, offset: nat, count: nat, ghost bytes: seq<Byte>)
      requires Holds(bytes) && out != data && count <= |bytes|
      requires out != null ==> offset + count <= out.Length
      modifies this`readPos, out
      ensures readPos == old(readPos) + count
      ensures Holds(bytes[count..])
      ensures out != null ==> out[..] == old(out[..offset]) + bytes[..count] + old(out[offset + count..])
    {
      if out != null {
        forall k | 0 <= k < count {
          out[offset + k] := data[readPos + k];
        }
      }
      ghost var was := readPos;
      readPos := readPos + count;
      assert data[was..writePos][count..] == data[readPos..writePos];
      assert out != null ==> out[..] == out[..offset] + out[offset..offset + count] + out[offset + count..];
    }
  }

  /** Each block points to the following one, the last to the first. */
  ghost predicate Linked(ring: seq<Block>)
    reads ring`next
  {
    forall i :: 0 <= i < |ring| ==> ring[i].next == ring[if i + 1 < |ring| then i + 1 else 0]
  }

  ghost predicate Separate(ring: seq<Block>) {
    forall i, j :: 0 <= i < j < |ring| ==> ring[i] != ring[j] && ring[i].data != ring[j].data
  }

  /** Block `i` from `readHead`: it holds `held[i]`, or is drained. Blocks between the heads
      are full from their beginning. */
  ghost predicate InPlace(b: Block, i: nat, held: seq<seq<Byte>>)
    reads b`readPos, b`writePos, b.data
  {
    if i < |held| then
      && b.Holds(held[i])
      && (i > 0 ==> b.readPos == 0)
      && (0 < i < |held| - 1 ==> b.writePos == BUFFER_LENGTH)
      && (0 == i < |held| - 1 ==> b.writePos == BUFFER_LENGTH || b.writePos == 0)
    else b.data.Length == BUFFER_LENGTH && b.readPos == 0 && b.writePos == 0
  }

  ghost predicate Filled(ring: seq<Block>, held: seq<seq<Byte>>)
    reads ring`readPos, ring`writePos, set b | b in ring :: b.data
  {
    forall i :: 0 <= i < |ring| ==> InPlace(ring[i], i, held)
  }

  lemma Turn(ring: seq<Block>)
    requires ring != [] && Linked(ring) && Separate(ring)
    ensures Linked(ring[1..] + [ring[0]]) && Separate(ring[1..] + [ring[0]])
  {
    var turned := ring[1..] + [ring[0]];
    assert forall i :: 0 <= i < |ring| ==> turned[i] == ring[if i + 1 < |ring| then i + 1 else 0];
  }

  function InsertAt(ring: seq<Block>, c: nat, b: Block): (r: seq<Block>)
    requires c <= |ring|
    ensures |r| == |ring| + 1 && r[c] == b
    ensures forall i :: 0 <= i < c ==> r[i] == ring[i]
    ensures forall i :: c < i < |r| ==> r[i] == ring[i - 1]
  {
    ring[..c] + [b] + ring[c..]
  }

  /** Inserting a block at position `c` of the ring. */
  lemma Insert(ring: seq<Block>, c: nat, b: Block)
    requires 0 < c <= |ring| && Separate(ring)
    requires forall i :: 0 <= i < |ring| ==> ring[i] != b && ring[i].data != b.data
    requires forall i :: 0 <= i < |ring| && i != c - 1 ==> ring[i].next == ring[if i + 1 < |ring| then i + 1 else 0]
    requires ring[c - 1].next == b && b.next == ring[if c < |ring| then c else 0]
    ensures Linked(InsertAt(ring, c, b)) && Separate(InsertAt(ring, c, b))
  {}

  lemma InsertFilled(ring: seq<Block>, held: seq<seq<Byte>>, b: Block)
    requires 0 < |held| <= |ring| && Filled(ring, held)
    requires ring[|held| - 1].writePos == BUFFER_LENGTH && b.Holds([]) && b.readPos == 0
    ensures Filled(InsertAt(ring, |held|, b), held + [[]])
  {}

  lemma TurnFilled(ring: seq<Block>, held: seq<seq<Byte>>)
    requires 1 < |held| <= |ring| && Filled(ring, held)
    requires ring[0].readPos == 0 && ring[0].writePos == 0
    ensures Filled(ring[1..] + [ring[0]], held[1..])
  {}

  lemma FlattenUpdateLast(held: seq<seq<Byte>>, bytes: seq<Byte>)
    requires held != []
    ensures Flatten(held[|held| - 1 := held[|held| - 1] + bytes]) == Flatten(held) + bytes
  {
    var front, last := held[..|held| - 1], held[|held| - 1];
    assert held == front + [last];
    assert held[|held| - 1 := last + bytes] == front + [last + bytes];
    FlattenSnoc(front, last);
    FlattenSnoc(front, last + bytes);
    assert Flatten(front) + (last + bytes) == Flatten(front) + last + bytes;
  }

  lemma FlattenUpdateFirst(held: seq<seq<Byte>>, n: nat)
    requires held != [] && n <= |held[0]|
    ensures Flatten(held[0 := held[0][n..]]) == Flatten(held)[n..] && n <= |Flatten(held)|
    ensures Flatten(held)[..n] == held[0][..n]
  {
    assert held[0 := held[0][n..]][1..] == held[1..];
    var rest := Flatten(held[1..]);
    assert (held[0] + rest)[n..] == held[0][n..] + rest;
    assert (held[0] + rest)[..n] == held[0][..n];
  }

  /** `dst` with its first `k` elements copied from `src`. */
  function Mixed(src: seq<Byte>, dst: seq<Byte>, k: nat): seq<Byte>
    requires k <= |src| && k <= |dst|
  {
    src[..k] + dst[k..]
  }

  lemma Overwrite(src: seq<Byte>, dst: seq<Byte>, k: nat, n: nat)
    requires k + n <= |src| && k + n <= |dst|
    ensures var mixed := Mixed(src, dst, k);
      mixed[..k] + src[k..][..n] + mixed[k + n..] == Mixed(src, dst, k + n)
  {}

  class NodeBIO {
    var length: nat
    var readHead: Block
    var writeHead: Block

    /** The blocks in ring order from `readHead`, and what those up to `writeHead` hold. */
    ghost var ring: seq<Block>
    ghost var held: seq<seq<Byte>>
    ghost var Repr: set<object>

    /** The ring, with the first blocks holding `held`. */
    ghost predicate ShapeOf(first: Block, last: Block, ring: seq<Block>, held: seq<seq<Byte>>, repr: set<object>)
      reads repr
    {
      && 0 < |held| <= |ring| && first == ring[0] && last == ring[|held| - 1]
      && this !in repr
      && (forall i :: 0 <= i < |ring| ==> ring[i] in repr && ring[i].data in repr)
      && Linked(ring) && Separate(ring) && Filled(ring, held)
    }

    ghost predicate Shape()
      reads this, Repr
    {
      ShapeOf(readHead, writeHead, ring, held, Repr)
    }

    /** The unread bytes, oldest first. */
    ghost function Contents(): seq<Byte>
      reads this`held
    {
      Flatten(held)
    }

    /** The object invariant. In particular an empty queue has its heads on one block. */
    ghost predicate Valid()
      reads this, Repr
    {
      && Shape() && length == |Contents()|
      && (|held| > 1 ==> writeHead.writePos > 0)
    }

    constructor ()
      ensures Valid() && Contents() == [] && fresh(Repr)
    {
      var head := new Block();
      head.next := head;
      length, readHead, writeHead := 0, head, head;
      ring, held, Repr := [head], [[]], {head, head.data};
      new;
      FlattenOne<Byte>([]);
    }

    // ---------------------------------------------------------------- writing

    /** Copies bytes behind those of the block being filled. */
    method Fill(src: seq<Byte>, offset: nat, count: nat)
      requires Shape() && offset + count <= |src| && writeHead.writePos + count <= BUFFER_LENGTH
      modifies this`held, writeHead`writePos, writeHead.data
      ensures Shape() && |held| == |old(held)| && writeHead.writePos == old(writeHead.writePos) + count
      ensures Contents() == old(Contents()) + src[offset..offset + count]
    {
      ghost var last := |held| - 1;
      ghost var bytes := held[last];
      writeHead.Append(src, offset, count, bytes);
      held := held[last := bytes + src[offset..offset + count]];
      FlattenUpdateLast(old(held), src[offset..offset + count]);
    }

    /** Makes a new block the successor of `writeHead`. */
    method LinkNew() returns (next: Block)
      requires Shape() && writeHead.writePos == BUFFER_LENGTH
      modifies writeHead`next
      ensures fresh(next) && fresh(next.data) && next.writePos == 0
      ensures 0 < |held| <= |ring| && readHead == ring[0] && Filled(ring, held) && next.Holds([])
      ensures Linked(InsertAt(ring, |held|, next)) && Separate(InsertAt(ring, |held|, next))
    {
      next := new Block();
      next.next := writeHead.next;
      writeHead.next := next;
      Insert(ring, |held|, next);
    }

    lemma ExtendedShape(next: Block)
      requires 0 < |held| <= |ring| && readHead == ring[0] && this !in Repr
      requires forall i :: 0 <= i < |ring| ==> ring[i] in Repr && ring[i].data in Repr
      requires Filled(ring, held) && next.Holds([]) && next.readPos == 0
      requires ring[|held| - 1].writePos == BUFFER_LENGTH
      requires Linked(InsertAt(ring, |held|, next)) && Separate(InsertAt(ring, |held|, next))
      ensures ShapeOf(readHead, next, InsertAt(ring, |held|, next), held + [[]], Repr + {next, next.data})
    {
      InsertFilled(ring, held, next);
    }

    method Grow() returns (next: Block, ghost longer: seq<Block>)
      requires Shape() && writeHead.writePos == BUFFER_LENGTH
      modifies writeHead`next
      ensures fresh(next) && fresh(next.data) && next.writePos == 0
      ensures ShapeOf(readHead, next, longer, held + [[]], Repr + {next, next.data})
    {
      next := LinkNew();
      ExtendedShape(next);
      longer := InsertAt(ring, |held|, next);
    }

    /** Puts a new block between `writeHead` and its successor, and moves on to it. */
    method Extend()
      requires Shape() && writeHead.writePos == BUFFER_LENGTH
      modifies this`writeHead, this`ring, this`held, this`Repr, writeHead`next
      ensures Shape() && fresh(Repr - old(Repr)) && |held| == |old(held)| + 1
      ensures Contents() == old(Contents())
      ensures writeHead.writePos == 0
    {
      ghost var longer;
      writeHead, longer := Grow();
      FlattenSnoc(held, []);
      ring := longer;
      held := held + [[]];
      Repr := Repr + {writeHead, writeHead.data};
    }

    /** One turn of `Write`'s loop: fills the block, and goes on to a new one if bytes are left. */
    method WriteSome(src: seq<Byte>, offset: nat, left: nat) returns (toWrite: nat)
      requires Shape() && left > 0 && offset + left <= |src|
      modifies this, Repr
      ensures Shape() && fresh(Repr - old(Repr)) && length == old(length) + toWrite
      ensures var room := BUFFER_LENGTH - old(writeHead.writePos); toWrite == if left > room then room else left
      ensures Contents() == old(Contents()) + src[offset..offset + toWrite]
      ensures if toWrite == left then writeHead.writePos > 0 else writeHead.writePos == 0
    {
      toWrite := left;
      var avail := BUFFER_LENGTH - writeHead.writePos;
      if toWrite > avail {
        toWrite := avail;
      }
      Fill(src, offset, toWrite);
      length := length + toWrite;
      if toWrite != left {
        Extend();
      }
    }

    lemma MoreOf(before: seq<Byte>, src: seq<Byte>, offset: nat, n: nat)
      requires offset + n <= |src|
      ensures before + src[..offset] + src[offset..offset + n] == before + src[..offset + n]
    {
      assert src[..offset] + src[offset..offset + n] == src[..offset + n];
      Assoc(before, src[..offset], src[offset..offset + n]);
    }

    /** `Write`: appends the first `size` bytes of `src` to the queue. */
    method Write(src: seq<Byte>, size: nat)
      requires Valid() && size <= |src|
      modifies this, Repr
      ensures Valid() && fresh(Repr - old(Repr))
      ensures Contents() == old(Contents()) + src[..size]
    {
      var offset, left := 0, size;
      ghost var before := Contents();
      while left > 0
        invariant 0 <= left && offset + left == size
        invariant Shape() && fresh(Repr - old(Repr))
        invariant Contents() == before + src[..offset]
        invariant length == |before| + offset
        invariant |held| > 1 ==> writeHead.writePos > 0 || left > 0
        invariant left > 0 && offset > 0 ==> writeHead.writePos == 0
        decreases left, if writeHead.writePos < BUFFER_LENGTH then 0 else 1
      {
        var toWrite := WriteSome(src, offset, left);
        MoreOf(before, src, offset, toWrite);
        left := left - toWrite;
        offset := offset + toWrite;
      }
    }

    // ---------------------------------------------------------------- reading

    /** Moves on from a drained head; its block is kept in the ring. */
    method Advance()
      requires Shape() && |held| > 1 && held[0] == [] && readHead.readPos == 0 && readHead.writePos == 0
      modifies this`readHead, this`ring, this`held
      ensures Shape() && Contents() == old(Contents()) && held == old(held)[1..]
    {
      Turn(ring);
      TurnFilled(ring, held);
      assert ring[0].next == ring[1];
      readHead := readHead.next;
      ring := ring[1..] + [ring[0]];
      held := held[1..];
    }

    /** Takes the oldest `avail` bytes, all of them in the head. */
    method TakeHead(out: array?<Byte>, offset: nat, avail: nat)
      requires Shape() && avail <= |held[0]|
      requires out != null ==> out !in Repr && offset + avail <= out.Length
      modifies this`held, readHead`readPos, out
      ensures Shape() && held == old(held)[0 := old(held)[0][avail..]]
      ensures out != null ==> out[..] == old(out[..offset]) + old(held)[0][..avail] + old(out[offset + avail..])
    {
      ghost var bytes := held[0];
      readHead.Take(out, offset, avail, bytes);
      held := held[0 := bytes[avail..]];
    }

    /** One turn of `Read`'s loop up to "Move to next buffer". */
    method TakeFromHead(out: array?<Byte>, offset: nat, left: nat) returns (avail: nat)
      requires Shape()
      requires out != null ==> out !in Repr && offset + left <= out.Length
      modifies this`held, readHead`readPos, out
      ensures Shape() && |held| == |old(held)|
      ensures avail == if |old(held)[0]| <= left then |old(held)[0]| else left
      ensures held[0] == old(held)[0][avail..]
      ensures avail <= |old(Contents())| && Contents() == old(Contents())[avail..]
      ensures out != null ==> out[..] == old(out[..offset]) + old(Contents())[..avail] + old(out[offset + avail..])
    {
      avail := readHead.writePos - readHead.readPos;
      if avail > left {
        avail := left;
      }
      FlattenUpdateFirst(held, avail);
      TakeHead(out, offset, avail);
    }

    /** Sets a drained head back to its beginning. */
    method Rewind()
      requires Shape() && readHead.readPos == readHead.writePos
      modifies readHead`readPos, readHead`writePos
      ensures Shape() && held[0] == []
      ensures readHead.readPos == 0 && readHead.writePos == 0
    {
      readHead.readPos := 0;
      readHead.writePos := 0;
    }
  
    /** How far a read of `src` into an array that held `target` has come. */
    ghost predicate Copied(out: array?<Byte>, src: seq<Byte>, target: seq<Byte>, offset: nat)
      reads this`held, out
    {
      && offset <= |src| && Contents() == src[offset..]
      && (out != null ==> offset <= |target| && out[..] == Mixed(src, target, offset))
    }

    /** Leaves a drained head, which is kept in the ring, unless nothing more is wanted. */
    method MoveOn(more: bool)
      requires Shape() && (|held| > 1 ==> writeHead.writePos > 0)
      requires more ==> |Contents()| > 0
      modifies this`held, this`ring, this`readHead, readHead`readPos, readHead`writePos
      ensures Shape() && (|held| > 1 ==> writeHead.writePos > 0)
      ensures Contents() == old(Contents())
      ensures if more && old(held)[0] == [] then |held| < |old(held)| else |held| == |old(held)|
    {
      if readHead.readPos == readHead.writePos {
        Rewind();
        if more {
          OneEmpty();
          Advance();
        }
      }
    }

    method CopySome(out: array?<Byte>, offset: nat, left: nat, ghost src: seq<Byte>, ghost target: seq<Byte>)
      returns (avail: nat)
      requires Shape() && Copied(out, src, target, offset)
      requires out != null ==> out !in Repr && offset + left <= out.Length
      modifies this`held, readHead`readPos, out
      ensures Shape() && |held| == |old(held)| && Copied(out, src, target, offset + avail)
      ensures avail == if |old(held)[0]| <= left then |old(held)[0]| else left
      ensures held[0] == old(held)[0][avail..] && avail <= |old(Contents())|
    {
      avail := TakeFromHead(out, offset, left);
      if out != null {
        Overwrite(src, target, offset, avail);
      }
    }

    /** One turn of `Read`'s loop: takes what the head holds, and moves on from it once it is
        drained, unless all `wanted` bytes have been read. */
    method ReadSome(out: array?<Byte>, offset: nat, left: nat, wanted: nat,
                    ghost src: seq<Byte>, ghost target: seq<Byte>)
      returns (avail: nat)
      requires Shape() && (|held| > 1 ==> writeHead.writePos > 0)
      requires 0 < wanted <= left && (wanted == left || wanted == |Contents()|)
      requires wanted <= |Contents()| && Copied(out, src, target, offset)
      requires out != null ==> out !in Repr && offset + left <= out.Length
      modifies this`held, this`ring, this`readHead, Repr, out
      ensures Shape() && (|held| > 1 ==> writeHead.writePos > 0)
      ensures avail <= wanted && Copied(out, src, target, offset + avail)
      ensures avail > 0 || |held| < |old(held)|
    {
      avail := CopySome(out, offset, left, src, target);
      MoveOn(avail != wanted);
    }

    lemma OneEmpty()
      requires Shape() && held[0] == [] && |Contents()| > 0
      ensures |held| > 1
    {
      if |held| == 1 {
        assert held == [[]];
        FlattenOne<Byte>([]);
      }
    }

    /** The loop of `Read` has read `done` bytes of `src`. */
    ghost predicate InLoop(out: array?<Byte>, size: nat, expected: nat, done: nat, src: seq<Byte>, target: seq<Byte>)
      reads this, Repr, out
    {
      && Shape() && (|held| > 1 ==> writeHead.writePos > 0)
      && done <= expected == (if |src| > size then size else |src|)
      && (out != null ==> out !in Repr && size <= out.Length)
      && Copied(out, src, target, done)
    }

    method ReadTurn(out: array?<Byte>, size: nat, expected: nat, done: nat,
                    ghost src: seq<Byte>, ghost target: seq<Byte>)
      returns (next: nat)
      requires InLoop(out, size, expected, done, src, target) && done < expected
      modifies this`held, this`ring, this`readHead, Repr, out
      ensures done <= next <= expected && InLoop(out, size, expected, next, src, target)
      ensures next > done || |held| < |old(held)|
    {
      var avail := ReadSome(out, done, size - done, expected - done, src, target);
      next := done + avail;
    }

    lemma StartOfLoop(out: array?<Byte>, size: nat, expected: nat, target: seq<Byte>)
      requires Shape() && (|held| > 1 ==> writeHead.writePos > 0)
      requires expected == if |Contents()| > size then size else |Contents()|
      requires out != null ==> out !in Repr && size <= out.Length && target == out[..]
      ensures InLoop(out, size, expected, 0, Contents(), target)
    {}

    /** The loop of `Read`. */
    method ReadLoop(out: array?<Byte>, size: nat, expected: nat, ghost target: seq<Byte>) returns (bytesRead: nat)
      requires Shape() && (|held| > 1 ==> writeHead.writePos > 0)
      requires expected == if |Contents()| > size then size else |Contents()|
      requires out != null ==> out !in Repr && size <= out.Length && target == out[..]
      modifies this`held, this`ring, this`readHead, Repr, out
      ensures Shape() && (|held| > 1 ==> writeHead.writePos > 0)
      ensures bytesRead == expected && Copied(out, old(Contents()), target, expected)
    {
      bytesRead := 0;
      ghost var before := Contents();
      StartOfLoop(out, size, expected, target);
      while bytesRead < expected
        invariant InLoop(out, size, expected, bytesRead, before, target)
        decreases expected - bytesRead, |held|
      {
        bytesRead := ReadTurn(out, size, expected, bytesRead, before, target);
      }
    }

    /** `Read`: removes the first min(`size`, `Length()`) bytes and copies them to `out`. */
    method Read(out: array?<Byte>, size: nat) returns (bytesRead: nat)
      requires Valid() && (out != null ==> out !in Repr && size <= out.Length)
      modifies this, Repr, out
      ensures Valid() && Repr == old(Repr)
      ensures bytesRead == if |old(Contents())| > size then size else |old(Contents())|
      ensures Contents() == old(Contents())[bytesRead..]
      ensures out != null ==> out[..] == old(Contents())[..bytesRead] + old(out[..])[bytesRead..]
    {
      var expected := if length > size then size else length;
      bytesRead := ReadLoop(out, size, expected, if out == null then [] else out[..]);
      Shorten(bytesRead);
    }

    method Shorten(bytesRead: nat)
      requires Shape() && (|held| > 1 ==> writeHead.writePos > 0) && length == |Contents()| + bytesRead
      modifies this`length
      ensures Valid()
    {
      length := length - bytesRead;
    }
  }
}
