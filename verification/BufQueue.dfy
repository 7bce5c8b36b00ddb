/** A queue of byte strings kept in one buffer (xwords4/common/bufqueue.c): each is a two-byte length and the
    bytes, rounded up to an even size. */
module BufQueue {

  type Byte = b: nat | b < 256

  function RoundUp(num: nat): nat {
    (num + 1) / 2 * 2
  }

  /** The room an entry takes. */
  function Size(e: seq<Byte>): nat {
    RoundUp(|e| + 2)
  }

  /** The length in front of an entry. */
  function Length(bytes: seq<Byte>): nat
    requires 2 <= |bytes|
  {
    bytes[0] as nat + 256 * bytes[1] as nat
  }

  /** The bytes hold one entry after another, with nothing left over. The odd byte of an entry of odd length is
      not looked at. */
  ghost predicate Holds(bytes: seq<Byte>, entries: seq<seq<Byte>>)
    decreases |entries|
  {
    if entries == [] then bytes == []
    else
      var e := entries[0];
      && Size(e) <= |bytes| && |e| < 0x10000
      && Length(bytes) == |e| && bytes[2..2 + |e|] == e
      && Holds(bytes[Size(e)..], entries[1..])
  }

  lemma {:induction false} HoldsMore(bytes: seq<Byte>, entries: seq<seq<Byte>>, more: seq<Byte>, e: seq<Byte>)
    requires Holds(bytes, entries) && Holds(more, [e])
    ensures Holds(bytes + more, entries + [e])
    decreases |entries|
  {
    if entries == [] {
      assert bytes + more == more && entries + [e] == [e];
    } else {
      var n, all := Size(entries[0]), bytes + more;
      HoldsMore(bytes[n..], entries[1..], more, e);
      assert all[n..] == bytes[n..] + more && (entries + [e])[1..] == entries[1..] + [e];
      assert all[2..2 + |entries[0]|] == bytes[2..2 + |entries[0]|];
    }
  }

  class BufQueue {
    const base: array<Byte>
    var head: nat
    var tail: nat
    ghost var entries: seq<seq<Byte>>

    ghost predicate Valid()
      reads this, base
    {
      head <= tail <= base.Length && (head == tail ==> head == 0) && Holds(base[head..tail], entries)
    }

    constructor (buf: array<Byte>)
      ensures Valid() && base == buf && entries == []
    {
      base := buf;
      head, tail := 0, 0;
      entries := [];
    }

    predicate HaveSpace(len: nat)
      reads this
    {
      tail + len + 2 < base.Length
    }

    method MoveDown(h: nat, n: nat)
      requires h + n <= base.Length && 0 < h
      modifies base
      ensures base[..n] == old(base[h..h + n])
    {
      ghost var queued := base[h..h + n];
      for k := 0 to n
        invariant base[..k] == queued[..k] && base[h + k..h + n] == queued[k..]
      {
        assert base[h + k] == base[h + k..h + n][0];
        base[k] := base[h + k];
        assert base[..k + 1] == queued[..k + 1];
      }
    }

    /** Moves what is queued to the front of the buffer. */
    method ShiftDown()
      requires Valid()
      modifies this`head, this`tail, base
      ensures Valid() && head == 0 && tail == old(tail) - old(head)
    {
      if head > 0 {
        ghost var queued := base[head..tail];
        MoveDown(head, tail - head);
        tail := tail - head;
        head := 0;
        assert base[head..tail] == queued;
      }
    }

    method PutLength(len: nat)
      requires len < 0x10000 && tail + 2 <= base.Length
      modifies base
      ensures base[..tail] == old(base[..tail]) && Length(base[tail..tail + 2]) == len
    {
      base[tail] := len % 256;
      base[tail + 1] := len / 256;
    }

    method CopyTo(at: nat, buf: seq<Byte>)
      requires at + |buf| <= base.Length
      modifies base
      ensures base[..at] == old(base[..at]) && base[at..at + |buf|] == buf
    {
      for k := 0 to |buf|
        invariant base[..at] == old(base[..at]) && base[at..at + k] == buf[..k]
      {
        base[at + k] := buf[k];
        assert base[at..at + k + 1] == base[at..at + k] + [buf[k]];
      }
      assert buf[..|buf|] == buf;
    }

    method Store(buf: seq<Byte>)
      requires head <= tail && HaveSpace(|buf|) && |buf| < 0x10000
      modifies base
      ensures base[..tail] == old(base[..tail]) && tail + Size(buf) <= base.Length
      ensures Holds(base[tail..tail + Size(buf)], [buf])
    {
      PutLength(|buf|);
      ghost var front := base[..tail + 2];
      CopyTo(tail + 2, buf);
      assert base[..tail] == front[..tail] && base[tail..tail + 2] == front[tail..];
      StoredAlone(base[tail..tail + Size(buf)], buf, base[tail..tail + 2]);
    }

    static lemma StoredAlone(bytes: seq<Byte>, e: seq<Byte>, front: seq<Byte>)
      requires |bytes| == Size(e) && |e| < 0x10000 && |front| == 2 && bytes[..2] == front && Length(front) == |e|
      requires bytes[2..2 + |e|] == e
      ensures Holds(bytes, [e])
    {
      assert front[0] == bytes[..2][0] && front[1] == bytes[..2][1];
      assert bytes[Size(e)..] == [] && [e][1..] == [];
    }

    /** Adds at the end if there is room, moving the queue down first when there is not. The end never passes
        the end of the buffer. */
    method Add(buf: seq<Byte>) returns (success: bool)
      requires Valid() && |buf| < 0x10000
      modifies this, base
      ensures Valid()
      ensures success <==> old(tail - head) + |buf| + 2 < base.Length || old(tail) + |buf| + 2 < base.Length
      ensures entries == if success then old(entries) + [buf] else old(entries)
    {
      if !HaveSpace(|buf|) {
        ShiftDown();
      }
      success := HaveSpace(|buf|);
      if success {
        Append(buf);
      }
    }

    method Append(buf: seq<Byte>)
      requires Valid() && HaveSpace(|buf|) && |buf| < 0x10000
      modifies this`tail, this`entries, base
      ensures Valid() && entries == old(entries) + [buf]
    {
      ghost var queued, all := base[head..tail], base[..tail];
      assert queued == all[head..];
      Store(buf);
      ghost var stored := base[tail..tail + Size(buf)];
      assert base[head..tail] == base[..tail][head..] == queued;
      HoldsMore(queued, entries, stored, buf);
      assert base[head..tail + Size(buf)] == queued + stored;
      tail := tail + Size(buf);
      entries := entries + [buf];
    }

    /** The first entry, left in place. */
    method Get() returns (have: bool, buf: seq<Byte>)
      requires Valid()
      ensures have <==> entries != []
      ensures have ==> buf == entries[0]
    {
      have := head < tail;
      buf := [];
      if have {
        ghost var queued := base[head..tail];
        var len := Length(base[head..head + 2]);
        assert queued[0] == base[head] && queued[1] == base[head + 1];
        assert len == Length(queued) == |entries[0]|;
        buf := base[head + 2..head + 2 + len];
        assert 2 + len <= |queued|;
        assert forall k :: 0 <= k < len ==> buf[k] == base[head + 2 + k] == queued[2 + k];
        assert buf == queued[2..2 + len];
      }
    }

    method RemoveOne()
      requires Valid() && entries != []
      modifies this
      ensures Valid() && entries == old(entries)[1..]
    {
      ghost var queued := base[head..tail];
      var len := Length(base[head..head + 2]);
      assert queued[0] == base[head] && queued[1] == base[head + 1];
      assert len == Length(queued) == |entries[0]|;
      head := head + RoundUp(len + 2);
      assert base[head..tail] == queued[Size(entries[0])..];
      entries := entries[1..];
      if head == tail {
        head, tail := 0, 0;
      }
    }

    method RemoveAll()
      requires Valid()
      modifies this
      ensures Valid() && entries == []
    {
      head, tail := 0, 0;
      entries := [];
    }
  }
}
