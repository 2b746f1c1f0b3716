/** The keystroke ring of dosshd/ssh.c: what handle_channel_data puts in and ssh_channel_getc takes out. */
module KeyRing {
  import opened Bytes
  import opened SshServer

  /** The k-th place from the head. */
  function Place(head: nat, k: nat): (p: nat)
    ensures p < SSH_CIN_SZ
  {
    (head + k) % SSH_CIN_SZ
  }

  lemma PlaceValue(head: nat, k: nat)
    requires head < SSH_CIN_SZ && k <= SSH_CIN_SZ
    ensures Place(head, k) == if head + k < SSH_CIN_SZ then head + k else head + k - SSH_CIN_SZ
  {
  }

  /** How many places lie from the head to the tail. */
  function Gap(head: nat, tail: nat): (n: nat)
    requires head < SSH_CIN_SZ && tail < SSH_CIN_SZ
    ensures n < SSH_CIN_SZ
  {
    if head <= tail then tail - head else tail + SSH_CIN_SZ - head
  }

  /** Two places less than a ring apart are different. */
  lemma PlacesDiffer(head: nat, k: nat, n: nat)
    requires head < SSH_CIN_SZ && k < n < SSH_CIN_SZ
    ensures Place(head, k) != Place(head, n)
  {
    hide Place;
    PlaceValue(head, k);
    PlaceValue(head, n);
  }

  /** The tail is as many places from the head as the gap says, and a step at either end changes the gap by one. */
  lemma GapSteps(head: nat, tail: nat)
    requires head < SSH_CIN_SZ && tail < SSH_CIN_SZ
    ensures Place(head, Gap(head, tail)) == tail && Place(head, 0) == head && (Gap(head, tail) == 0 <==> head == tail)
    ensures Place(tail, 1) == head <==> Gap(head, tail) == SSH_CIN_SZ - 1
    ensures Place(tail, 1) != head ==> Gap(head, Place(tail, 1)) == Gap(head, tail) + 1
    ensures head != tail ==> Gap(Place(head, 1), tail) == Gap(head, tail) - 1
  {
    hide Place;
    PlaceValue(head, Gap(head, tail));
    PlaceValue(head, 0);
    PlaceValue(head, 1);
    PlaceValue(tail, 1);
  }

  /** Counting from the next place. */
  lemma PlaceShifts(head: nat, k: nat)
    ensures Place(Place(head, 1), k) == Place(head, k + 1)
  {
  }

  class Ring {
    const cells: array<byte>
    var head: nat
    var tail: nat

    ghost predicate Valid()
      reads this
    {
      cells.Length == SSH_CIN_SZ && head < SSH_CIN_SZ && tail < SSH_CIN_SZ
    }

    ghost function Contents(): (s: seq<byte>)
      requires Valid()
      reads this, cells
      ensures |s| == Gap(head, tail) && forall k :: 0 <= k < |s| ==> s[k] == cells[Place(head, k)]
    {
      seq(Gap(head, tail), k requires 0 <= k && Valid() reads this, cells => cells[Place(head, k)])
    }

    constructor ()
      ensures Valid() && Contents() == [] && fresh(cells)
    {
      cells := new byte[SSH_CIN_SZ](_ => 0);
      head, tail := 0, 0;
      new;
      GapSteps(0, 0);
    }

    /** One byte, refused exactly when one more would make the ring look empty. */
    method Put(b: byte) returns (ok: bool)
      requires Valid()
      modifies this`tail, cells
      ensures Valid()
      ensures ok <==> old(|Contents()|) < SSH_CIN_SZ - 1
      ensures Contents() == if ok then old(Contents()) + [b] else old(Contents())
    {
      hide Place, Gap;
      var next := Place(tail, 1);
      ghost var n, was := Gap(head, tail), Contents();
      GapSteps(head, tail);
      if next == head {
        return false;
      }
      cells[tail] := b;
      tail := next;
      forall k | 0 <= k < n
        ensures Contents()[k] == was[k]
      {
        PlacesDiffer(head, k, n);
      }
      return true;
    }

    /** The loop of handle_channel_data. */
    method TypeIn(d: seq<byte>)
      requires Valid()
      modifies this`tail, cells
      ensures Valid() && Contents() == Typed(old(Contents()), d)
    {
      hide Contents;
      var i := 0;
      while i < |d|
        invariant 0 <= i <= |d| && Valid() && Contents() == old(Contents()) + d[..i] && |Contents()| < SSH_CIN_SZ
      {
        var ok := Put(d[i]);
        if !ok {
          return;
        }
        assert d[..i] + [d[i]] == d[..i + 1];
        i := i + 1;
      }
      assert d[..i] == d;
    }

    /** ssh_channel_getc. */
    method GetC() returns (b: int)
      requires Valid()
      modifies this`head
      ensures Valid()
      ensures old(Contents()) == [] ==> b == -1 && Contents() == []
      ensures old(Contents()) != [] ==> b == old(Contents()[0]) as int && Contents() == old(Contents())[1..]
    {
      if head == tail {
        return -1;
      }
      hide Place, Gap;
      ghost var n, was, start := Gap(head, tail), Contents(), head;
      GapSteps(head, tail);
      b := cells[head] as int;
      head := Place(head, 1);
      forall k | 0 <= k < n - 1
        ensures Contents()[k] == was[k + 1]
      {
        PlaceShifts(start, k);
      }
    }
  }
}
