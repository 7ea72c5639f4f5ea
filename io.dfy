// The key-value store under every tree (io.hpp): a LevelDB database behind
// a write buffer, and a wrapper that gives each sub-tree its own key space.
// LevelDB itself is a foreign library; its database is an abstract map here.
module IO {
  import opened Tools

  class IOLevelDB {
    /** What LevelDB holds. */
    var db: map<string, string>
    /** Writes not yet pushed to LevelDB. */
    var buffer: map<string, string>
    const batchSize: int

    /** What a reader sees: the buffer shadows the database. */
    ghost function Contents(): map<string, string>
      reads this
    {
      db + buffer
    }

    constructor (batch: int)
      ensures db == map[] && buffer == map[] && batchSize == batch
    {
      db := map[];
      buffer := map[];
      batchSize := batch;
    }

    /** open() destroys any database of that name before opening it, so
        nothing written before survives; whether LevelDB then opens it is the
        library's answer, passed in as `status`. */
    method Open(status: bool) returns (ok: bool)
      modifies this`db
      ensures ok == status
      ensures db == map[] && Contents() == buffer
    {
      db := map[];
      ok := status;
    }

    /** write() buffers; once the buffer holds batchSize entries they all go
        to the database in one batch. The size is unsigned and batch_size
        is converted to it, so a negative batch size never flushes. */
    method Write(key: string, value: string)
      modifies this`db, this`buffer
      ensures Contents() == old(Contents())[key := value]
      ensures batchSize >= 0 ==> |buffer| < batchSize || buffer == map[]
      ensures batchSize < 0 ==> buffer == old(buffer)[key := value] && db == old(db)
    {
      UnionUpdate(db, buffer, key, value);
      buffer := buffer[key := value];
      if batchSize >= 0 && |buffer| >= batchSize {
        db := db + buffer;
        buffer := map[];
      }
    }

    /** flush() always pushes the buffer (its size is never below zero). */
    method Flush()
      modifies this`db, this`buffer
      ensures buffer == map[] && db == old(Contents())
    {
      db := db + buffer;
      buffer := map[];
    }

    /** read(): the buffered value if there is one, else the database's;
        when neither has the key the caller's string keeps what it held. */
    method Read(key: string, previous: string) returns (found: bool, value: string)
      ensures found <==> key in Contents()
      ensures found ==> value == Contents()[key]
      ensures !found ==> value == previous
    {
      if key in buffer {
        return true, buffer[key];
      }
      if key in db {
        return true, db[key];
      }
      return false, previous;
    }

    /** destroy() closes and deletes the database; the buffer is untouched. */
    method Destroy()
      modifies this`db
      ensures db == map[] && Contents() == buffer
    {
      db := map[];
    }
  }

  /** The string a read() leaves behind: the stored value, or what the
      caller's string already held when the key is absent. */
  function ReadOr<K>(store: map<K, string>, key: K, previous: string): string {
    if key in store then store[key] else previous
  }

  lemma {:induction false} UnionUpdate(db: map<string, string>, buffer: map<string, string>, k: string, v: string)
    ensures db + buffer[k := v] == (db + buffer)[k := v]
    ensures (db + buffer[k := v]) + map[] == db + buffer[k := v]
  {
  }

  /** itos(id)+"::", the prefix IOMultiple puts before every key. */
  function Namespace(id: int): string {
    Itos(id) + "::"
  }

  function NamespacedKey(id: int, key: string): string {
    Namespace(id) + key
  }

  /** No character of a storage id is ':'. */
  lemma {:induction false} ItosHasNoColon(d: int)
    ensures forall i :: 0 <= i < |Itos(d)| ==> Itos(d)[i] != ':'
  {
    var s := Itos(d);
    forall i | 0 <= i < |s| ensures s[i] != ':' {
      if i >= 10 {
        var t := DecimalString(d);
        assert s[i] == t[i - 10];
        if d < 0 {
          assert t == "-" + NatDecimal(-d);
          if i > 10 {
            assert t[i - 10] == NatDecimal(-d)[i - 11];
          }
        } else {
          assert t == NatDecimal(d);
        }
      }
    }
  }

  /** Two sub-trees with different ids never share a stored key, and within
      one id the wrapper loses nothing: the prefixed key determines both. */
  lemma {:induction false} NamespacesAreDisjoint(a: int, ka: string, b: int, kb: string)
    requires NamespacedKey(a, ka) == NamespacedKey(b, kb)
    ensures a == b && ka == kb
  {
    var sa, sb := Itos(a), Itos(b);
    ItosHasNoColon(a);
    ItosHasNoColon(b);
    var x, y := NamespacedKey(a, ka), NamespacedKey(b, kb);
    assert x[|sa|] == ':' && y[|sb|] == ':';
    if |sa| < |sb| {
      assert false;
    } else if |sb| < |sa| {
      assert false;
    }
    assert sa == x[..|sa|] == y[..|sb|] == sb;
    ItosInjective(a, b);
    assert ka == x[|sa| + 2..] == y[|sb| + 2..] == kb;
  }

  /** IOMultiple: one underlying store, keys prefixed by the current id. */
  class IOMultiple {
    var identifier: string
    const io: IOLevelDB

    ghost var id: int

    ghost predicate Valid()
      reads this
    {
      identifier == Namespace(id)
    }

    constructor (io: IOLevelDB, id: int)
      ensures Valid() && this.id == id && this.io == io
    {
      identifier := Itos(id) + "::";
      this.io := io;
      this.id := id;
    }

    /** change_id replaces the identifier and nothing else. */
    method ChangeId(newId: int)
      modifies this
      ensures Valid() && id == newId
    {
      identifier := Itos(newId) + "::";
      id := newId;
    }

    /** The underlying store is already open: nothing to do. */
    method Open() returns (ok: bool)
      ensures ok
    {
      ok := true;
    }

    method Write(key: string, value: string)
      requires Valid()
      modifies io`db, io`buffer
      ensures io.Contents() == old(io.Contents())[NamespacedKey(id, key) := value]
    {
      io.Write(identifier + key, value);
    }

    method Read(key: string, previous: string) returns (found: bool, value: string)
      requires Valid()
      ensures found <==> NamespacedKey(id, key) in io.Contents()
      ensures found ==> value == io.Contents()[NamespacedKey(id, key)]
      ensures !found ==> value == previous
    {
      found, value := io.Read(identifier + key, previous);
    }

    /** flush and destroy leave the shared store alone. */
    method Flush()
    {
    }

    method Destroy()
    {
    }
  }
}
