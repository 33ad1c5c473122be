/** The fixed-capacity FIFO every queue of the host core is. */
module Ring {
  import opened Protocol

  /** `i` places on from `head`, around a ring of `n`. */
  function Around(head: nat, i: nat, n: nat): (k: nat)
    requires head < n && i <= n
    ensures k < n
  {
    if head + i < n then head + i else head + i - n
  }

  lemma AroundIsModulo(head: nat, i: nat, n: nat)
    requires head < n && i <= n
    ensures (head + i) % n == Around(head, i, n)
  {
    if head + i >= n { assert head + i == n * 1 + (head + i - n); }
  }

  class Ring<T(0)> {
    const storage: array<T>
    var head: nat
    var count: nat

    ghost predicate Valid()
      reads this, storage
    {
      0 < storage.Length && head < storage.Length && count <= storage.Length
    }

    /** Oldest first. */
    ghost function Contents(): (c: seq<T>)
      requires Valid()
      reads this, storage
      ensures |c| == count
    {
      seq(count, i requires 0 <= i < count && Valid() reads this, storage => storage[Around(head, i, storage.Length)])
    }

    constructor (capacity: nat)
      requires capacity > 0
      ensures Valid() && fresh(storage) && storage.Length == capacity && Contents() == []
    {
      storage := new T[capacity];
      head, count := 0, 0;
    }

    /** Refuses when full, and never evicts. */
    method Push(item: T) returns (ok: bool)
      requires Valid()
      modifies this`count, storage
      ensures Valid()
      ensures ok <==> |old(Contents())| < storage.Length
      ensures Contents() == if ok then old(Contents()) + [item] else old(Contents())
    {
      if count == storage.Length { return false; }
      AroundIsModulo(head, count, storage.Length);
      storage[(head + count) % storage.Length] := item;
      count := count + 1;
      assert Contents() == old(Contents()) + [item];
      return true;
    }

    method Pop() returns (got: Option<T>)
      requires Valid()
      modifies this`head, this`count
      ensures Valid()
      ensures old(Contents()) == [] ==> got == None && Contents() == []
      ensures old(Contents()) != [] ==> got == Some(old(Contents())[0]) && Contents() == old(Contents())[1..]
    {
      if count == 0 { return None; }
      got := Some(storage[head]);
      AroundIsModulo(head, 1, storage.Length);
      head := (head + 1) % storage.Length;
      count := count - 1;
      assert Contents() == old(Contents())[1..];
    }
  }
}
