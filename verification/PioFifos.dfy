/** The 32-bit FIFO between CPU and state machine: a circular buffer over eight
    words of which `depth` (4, or 8 or 0 when joined) are used. */
module PioFifos {
  import opened Words
  import opened PioMachine

  const JOINED_DEPTH: nat := 8

  class PioFifo {
    const buf: array<Word>
    var head: nat
    var count: nat
    var depth: nat

    ghost predicate Valid()
      reads this, buf
    {
      buf.Length == JOINED_DEPTH && depth <= JOINED_DEPTH && count <= depth && (depth > 0 ==> head < depth)
      && (depth == 0 ==> head == 0)
    }

    /** The buffered words, oldest first. */
    ghost function Contents(): (s: seq<Word>)
      requires Valid()
      reads this, buf
      ensures |s| == count
    {
      seq(count, i requires 0 <= i < count reads this, buf requires Valid() => buf[Slot(head, i, depth)])
    }

    ghost function View(): Fifo
      requires Valid()
      reads this, buf
    {
      Fifo(Contents(), depth)
    }

    constructor ()
      ensures Valid() && fresh(buf) && View() == Fifo([], 4)
    {
      buf := new Word[JOINED_DEPTH](i => 0);
      head, count, depth := 0, 0, 4;
    }

    method Clear()
      requires Valid()
      modifies this
      ensures Valid() && View() == Fifo([], old(depth))
    {
      count := 0;
      head := 0;
    }

    method SetDepth(d: nat)
      requires Valid() && d <= JOINED_DEPTH
      modifies this
      ensures Valid() && View() == Fifo([], d)
    {
      head, count := 0, 0;
      depth := d;
    }

    method Push(v: Word) returns (ok: bool)
      requires Valid()
      modifies this, buf
      ensures Valid()
      ensures ok == (|old(Contents())| < depth)
      ensures View() == Fifo(if ok then old(Contents()) + [v] else old(Contents()), old(depth))
    {
      if count == depth {
        return false;
      }
      ModOnce(head + count, depth);
      buf[(head + count) % depth] := v;
      count := count + 1;
      assert Contents() == old(Contents()) + [v];
      return true;
    }

    method Pop() returns (ok: bool, v: Word)
      requires Valid()
      modifies this
      ensures Valid()
      ensures ok == (old(Contents()) != [])
      ensures ok ==> v == old(Contents())[0]
      ensures View() == Fifo(if ok then old(Contents())[1..] else old(Contents()), old(depth))
    {
      if count == 0 {
        return false, 0;
      }
      v := buf[head];
      ModOnce(head + 1, depth);
      head := (head + 1) % depth;
      count := count - 1;
      assert Contents() == old(Contents())[1..];
      return true, v;
    }

    /** The oldest word without removing it, or 0. */
    method Peek() returns (v: Word)
      requires Valid()
      ensures v == if Contents() == [] then 0 else Contents()[0]
    {
      v := if count == 0 then 0 else buf[head];
    }
  }

  /** The place of word `i`, counting from the oldest. */
  function Slot(head: nat, i: nat, depth: nat): nat
    requires head < depth && i < depth
  {
    if head + i < depth then head + i else head + i - depth
  }

  lemma ModOnce(x: nat, d: nat)
    requires 0 < d && x < 2 * d
    ensures x % d == if x < d then x else x - d
  {
  }
}
