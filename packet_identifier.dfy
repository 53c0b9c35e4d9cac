/**
 * `PacketIdentifier`: the process-wide counter that hands out packet
 * identifiers.  The static counter is the one field of a class here.
 */
module PacketIdentifiers {
  import opened Bytes

  class PacketIdentifier {
    /** `nextPID`: the identifier handed out last (1 before the first call). */
    var nextPID: int

    /** The counter stays within the identifiers a 16-bit field can hold, 0 excluded. */
    predicate Valid()
      reads this
    {
      1 <= nextPID <= UInt16MaxValue
    }

    constructor ()
      ensures Valid() && nextPID == 1
    {
      nextPID := 1;
    }

    /**
     * `Acquire`: a counter at 65535 goes back to 1 first, then it is
     * incremented and its new value is the identifier.
     */
    method Acquire() returns (pid: UInt16)
      requires Valid()
      modifies this
      ensures Valid() && nextPID == pid
      ensures 2 <= pid <= UInt16MaxValue
      ensures pid == NextIdentifier(old(nextPID))
    {
      if nextPID == UInt16MaxValue {
        nextPID := 1;
      }
      nextPID := nextPID + 1;
      pid := nextPID;
    }

    /** `Release` keeps nothing and changes nothing. */
    method Release(pid: UInt16)
      requires Valid()
      ensures Valid()
    {
    }
  }

  /** The identifier `Acquire` hands out after `last`: one more, and 2 after 65535. */
  function NextIdentifier(last: int): int
  {
    if last == UInt16MaxValue then 2 else last + 1
  }

  /** The identifiers handed out never are 0 or 1, and after 65535 come 2, 3, ... again. */
  lemma NextIdentifierRange(last: int)
    requires 1 <= last <= UInt16MaxValue
    ensures 2 <= NextIdentifier(last) <= UInt16MaxValue
    ensures last == UInt16MaxValue ==> NextIdentifier(last) == 2
    ensures last < UInt16MaxValue ==> NextIdentifier(last) == last + 1
  {
  }

  /** The identifiers `n` successive calls hand out after `last`. */
  function Sequence(last: int, n: nat): (ids: seq<int>)
    ensures |ids| == n
    decreases n
  {
    if n == 0 then [] else [NextIdentifier(last)] + Sequence(NextIdentifier(last), n - 1)
  }

  /** `x` brought back onto the cycle 2..65535 once it has run past the end. */
  function Wrap(x: int): int
  {
    if x <= UInt16MaxValue then x else x - 65534
  }

  /** The `k`-th call after `last` hands out `last + k + 1`, wrapped onto the cycle. */
  lemma {:induction false} SequenceAt(last: int, n: nat, k: nat)
    requires 1 <= last <= UInt16MaxValue && k < n && k < 65534
    ensures Sequence(last, n)[k] == Wrap(last + k + 1)
    ensures 2 <= Sequence(last, n)[k] <= UInt16MaxValue
    decreases k
  {
    var next := NextIdentifier(last);
    if k > 0 {
      SequenceAt(next, n - 1, k - 1);
    }
  }

  /** Up to 65534 successive calls never hand out the same identifier twice. */
  lemma SequenceDistinct(last: int, n: nat, i: nat, j: nat)
    requires 1 <= last <= UInt16MaxValue && i < j < n <= 65534
    ensures Sequence(last, n)[i] != Sequence(last, n)[j]
  {
    SequenceAt(last, n, i);
    SequenceAt(last, n, j);
  }
}
