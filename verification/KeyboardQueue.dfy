/** The interrupt-time keyboard queue: thirty-two preallocated elements threaded on a used and an unused list. */
module PS2KeyboardQueue {
  import opened PS2Port
  import opened PS2Sequences

  class KeyboardQueue {
    ghost var contents: seq<byte>  // what is on the queue, oldest first
    const elements: array<byte>
    var used: seq<nat>
    var unused: seq<nat>

    /** Each element is on exactly one of the two lists, once, and the used ones hold the contents. */
    ghost predicate Valid()
      reads this, elements
    {
      && elements.Length == QUEUE_SIZE
      && |used| + |unused| == QUEUE_SIZE
      && Distinct(used + unused)
      && (forall i :: 0 <= i < |used| ==> used[i] < QUEUE_SIZE)
      && (forall i :: 0 <= i < |unused| ==> unused[i] < QUEUE_SIZE)
      && |contents| == |used|
      && (forall i :: 0 <= i < |used| ==> elements[used[i]] == contents[i])
    }

    constructor ()
      ensures Valid() && contents == [] && fresh(elements)
    {
      elements := new byte[QUEUE_SIZE];
      used, contents := [], [];
      unused := seq(QUEUE_SIZE, i => i);
    }

    method Enqueue(key: byte)
      requires Valid()
      modifies this, elements
      ensures Valid()
      ensures contents == if |old(contents)| < 32 then old(contents) + [key] else old(contents)
    {
      if unused != [] {
        var element := unused[0];
        forall i | 0 <= i < |used| ensures used[i] != element {
          assert (used + unused)[i] == used[i] && (used + unused)[|used|] == element;
        }
        unused := unused[1..];
        elements[element] := key;
        used, contents := used + [element], contents + [key];
        assert used + unused == old(used + unused);
      }
    }

    method Dequeue() returns (found: bool, key: byte)
      requires Valid()
      modifies this
      ensures Valid()
      ensures found == (old(contents) != [])
      ensures if found then old(contents) == [key] + contents else contents == old(contents)
    {
      if used == [] {
        return false, 0;
      }
      var element := used[0];
      Rotated(used + unused);
      used, unused, contents := used[1..], unused + [element], contents[1..];
      assert used + unused == (old(used + unused))[1..] + [element];
      return true, elements[element];
    }
  }

  lemma Rotated(s: seq<nat>)
    requires s != [] && Distinct(s)
    ensures Distinct(s[1..] + [s[0]])
  {
  }

  /** The two lists partition the same thirty-two elements. */
  lemma Partition(q: KeyboardQueue)
    requires q.Valid()
    ensures forall k: nat :: k in q.used || k in q.unused <==> k < 32
    ensures forall k: nat :: !(k in q.used && k in q.unused)
  {
    var all := q.used + q.unused;
    Covers(all, QUEUE_SIZE);
    forall k: nat | k < QUEUE_SIZE ensures k in q.used || k in q.unused { assert k in all; }
    forall i, j | 0 <= i < |q.used| && 0 <= j < |q.unused| ensures q.used[i] != q.unused[j] {
      assert all[i] == q.used[i] && all[|q.used| + j] == q.unused[j];
    }
  }

  ghost function Elements(s: seq<nat>): set<nat> { set x | x in s }

  ghost function Below(n: nat): (r: set<nat>)
    ensures |r| == n && forall k: nat :: k in r <==> k < n
  {
    if n == 0 then {} else Below(n - 1) + {n - 1}
  }

  /** n distinct numbers below n are all the numbers below n. */
  lemma Covers(s: seq<nat>, n: nat)
    requires |s| == n && Distinct(s) && forall i :: 0 <= i < |s| ==> s[i] < n
    ensures forall k: nat :: k < n ==> k in s
  {
    Cardinality(s);
    var have, all := Elements(s), Below(n);
    assert have <= all;
    assert |all| == |have| + |all - have| by { assert all == have + (all - have); }
    forall k: nat | k < n ensures k in s {
      assert k in all && k !in all - have;
    }
  }

  lemma {:induction false} Cardinality(s: seq<nat>)
    requires Distinct(s)
    ensures |Elements(s)| == |s|
  {
    if s != [] {
      var rest, last := s[..|s| - 1], s[|s| - 1];
      Cardinality(rest);
      assert s == rest + [last];
      assert Elements(s) == Elements(rest) + {last};
    }
  }
}
