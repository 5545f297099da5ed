/** The id log of hw_stuff.go: a ring buffer of packet ids that behaves as a bounded queue. */
module IdLogs {
  import opened Window

  lemma SlotMod(x: nat, max: nat)
    requires x < 2 * max
    ensures x % max == if x < max then x else x - max
  {
  }

  /** The `n` slots of a ring from position `first` on. */
  function Ring(slots: seq<Id>, first: nat, n: nat): (c: seq<Id>)
    requires first < |slots| && n <= |slots|
    ensures |c| == n
    ensures forall j :: 0 <= j < n ==> c[j] == slots[if first + j < |slots| then first + j else first + j - |slots|]
  {
    if first + n <= |slots| then slots[first..first + n] else slots[first..] + slots[..first + n - |slots|]
  }

  class IdLog {
    const ids: array<Id>
    var first: nat
    var n: nat

    /** The ids in the log, oldest first. */
    ghost var contents: seq<Id>

    ghost predicate Valid()
      reads this, ids
    {
      && 0 < ids.Length && first < ids.Length && n <= ids.Length
      && contents == Ring(ids[..], first, n)
    }

    constructor (size: nat)
      requires size > 0
      ensures Valid() && fresh(ids) && ids.Length == size
      ensures contents == []
    {
      ids := new Id[size](_ => 0);
      first, n, contents := 0, 0, [];
    }

    method Add(id: Id) returns (ok: bool)
      requires Valid()
      modifies this`n, this`contents, ids
      ensures Valid()
      ensures ok <==> id != 0 && |old(contents)| < ids.Length
      ensures contents == if ok then old(contents) + [id] else old(contents)
      ensures contents == LogAdd(old(contents), ids.Length, id)
    {
      if id == 0 {
        return false;
      }
      if n == ids.Length {
        return false;
      }
      var next := (first + n) % ids.Length;
      SlotMod(first + n, ids.Length);
      ids[next] := id;
      n := n + 1;
      ok := true;
      contents := contents + [id];
    }

    method Remove() returns (ok: bool)
      requires Valid()
      modifies this`first, this`n, this`contents
      ensures Valid()
      ensures ok <==> old(contents) != []
      ensures contents == if ok then old(contents)[1..] else old(contents)
    {
      if n == 0 {
        return false;
      }
      SlotMod(first + 1, ids.Length);
      first := (first + 1) % ids.Length;
      n := n - 1;
      ok := true;
      contents := contents[1..];
    }

    method Oldest() returns (id: Id, ok: bool)
      requires Valid()
      ensures ok <==> contents != []
      ensures ok ==> id == contents[0]
    {
      id, ok := ids[first], n > 0;
    }

    method SecondOldest() returns (id: Id, ok: bool)
      requires Valid()
      ensures ok <==> |contents| > 1
      ensures ok ==> id == contents[1]
    {
      SlotMod(first + 1, ids.Length);
      var next := (first + 1) % ids.Length;
      id, ok := ids[next], n > 1;
    }

    method Sorted() returns (vals: seq<Id>)
      requires Valid()
      ensures vals == contents
    {
      vals := [];
      for j := 0 to n
        invariant vals == contents[..j]
      {
        SlotMod(first + j, ids.Length);
        var next := (first + j) % ids.Length;
        assert ids[next] == contents[j];
        vals := vals + [ids[next]];
      }
    }
  }
}
