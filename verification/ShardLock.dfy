/** The sharded mutex as code: an array of mutexes, chosen by the hash of the key. */
module ShardLockCode {

  class Mutex {
    var holder: int

    constructor ()
      ensures holder == -1
    {
      holder := -1;
    }
  }

  class ShardLock {
    const hash: string -> nat
    const shards: array<Mutex>

    /** Every slot has a mutex of its own. */
    ghost predicate Valid()
      reads this, shards
    {
      && 0 < shards.Length
      && forall i, j :: 0 <= i < j < shards.Length ==> shards[i] != shards[j]
    }

    /** NewShardLock: sixteen shards unless a positive number is asked for. */
    constructor (num: int, hash: string -> nat)
      ensures Valid() && fresh(shards) && this.hash == hash
      ensures shards.Length == if num <= 0 then 16 else num
      ensures forall i :: 0 <= i < shards.Length ==> fresh(shards[i]) && shards[i].holder == -1
    {
      var n: nat := if num <= 0 then 16 else num;
      var placeholder := new Mutex();
      var slots := new Mutex[n](_ => placeholder);
      for i := 0 to n
        invariant forall j :: 0 <= j < i ==> fresh(slots[j]) && slots[j].holder == -1
        invariant forall j, k :: 0 <= j < k < i ==> slots[j] != slots[k]
      {
        var m := new Mutex();
        slots[i] := m;
      }
      this.shards := slots;
      this.hash := hash;
    }

    /** The slot of a key is its hash modulo the number of shards. */
    function GetLock(key: string): (m: Mutex)
      requires Valid()
      reads this, shards
      ensures m in shards[..]
    {
      shards[hash(key) % shards.Length]
    }

    /** Two keys share a mutex exactly when their hashes leave the same remainder. */
    lemma SharedExactly(a: string, b: string)
      requires Valid()
      ensures GetLock(a) == GetLock(b) <==> hash(a) % shards.Length == hash(b) % shards.Length
    {
      var i, j := hash(a) % shards.Length, hash(b) % shards.Length;
      assert i < j ==> shards[i] != shards[j];
      assert j < i ==> shards[j] != shards[i];
    }

    /** Lock blocks while the mutex is held, be it by another key or by the caller itself.
        `releases` are the keys that their holders unlock meanwhile; if the list ends before
        the mutex is free, the caller stays blocked. */
    method Lock(key: string, caller: nat, releases: seq<string>) returns (acquired: bool)
      requires Valid()
      modifies shards[..]
      ensures Valid() && forall other: string :: GetLock(other) == old(GetLock(other))
      ensures acquired <==> old(GetLock(key).holder) == -1
                            || exists i :: 0 <= i < |releases| && GetLock(releases[i]) == GetLock(key)
      ensures GetLock(key).holder == if acquired then caller else old(GetLock(key).holder)
      ensures forall m :: m in shards[..] && m != GetLock(key) ==>
                m.holder == old(m.holder)
                || (m.holder == -1 && exists i :: 0 <= i < |releases| && GetLock(releases[i]) == m)
    {
      var i := 0;
      while i < |releases| && GetLock(key).holder != -1
        invariant Valid() && 0 <= i <= |releases|
        invariant forall other: string :: GetLock(other) == old(GetLock(other))
        invariant GetLock(key).holder == old(GetLock(key).holder)
                  || (GetLock(key).holder == -1 && exists j :: 0 <= j < i && GetLock(releases[j]) == GetLock(key))
        invariant GetLock(key).holder != -1 ==> forall j :: 0 <= j < i ==> GetLock(releases[j]) != GetLock(key)
        invariant forall m :: m in shards[..] && m != GetLock(key) ==>
                    m.holder == old(m.holder)
                    || (m.holder == -1 && exists j :: 0 <= j < i && GetLock(releases[j]) == m)
      {
        if GetLock(releases[i]).holder != -1 {
          Unlock(releases[i]);
        }
        i := i + 1;
      }
      acquired := GetLock(key).holder == -1;
      if acquired {
        GetLock(key).holder := caller;
      }
    }

    /** Unlock frees the mutex of the key for every key that shares it; unlocking a free
        mutex is a fatal error. */
    method Unlock(key: string)
      requires Valid() && GetLock(key).holder != -1
      modifies GetLock(key)
      ensures Valid() && GetLock(key) == old(GetLock(key)) && GetLock(key).holder == -1
      ensures forall other: string :: GetLock(other) == old(GetLock(other))
                && (GetLock(other) != GetLock(key) ==> GetLock(other).holder == old(GetLock(other).holder))
    {
      GetLock(key).holder := -1;
    }
  }
}
