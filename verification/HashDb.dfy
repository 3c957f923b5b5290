/** The key database: a set of strings kept in a table that is doubled and refilled
    whenever a probe chain is full. */
module HashDb {
  import opened CStrings
  import opened HashTable

  datatype Op = Query | Insert

  class Db {
    const hash: Hash
    var entry: array<Entry>
    var size: nat

    ghost predicate Valid()
      reads this, entry
    {
      entry.Length == size && PowerOf2(size) && TableOk(entry[..], hash)
    }

    /* The abstract value: the set of keys the database holds. */
    ghost function Contents(): (s: set<seq<Byte>>)
      reads this, entry
    {
      Keys(entry[..])
    }

    /* db_open on a new file: a table of zero bytes. */
    constructor (hash: Hash, size: nat)
      requires PowerOf2(size)
      ensures Valid() && Contents() == {} && fresh(entry)
      ensures this.hash == hash && this.size == size
    {
      this.hash := hash;
      this.size := size;
      entry := new Entry[size](_ => Pad([]));
      new;
      assert forall i :: 0 <= i < size ==> !Used(entry[..][i]);
    }

    /* db_action: walk the chain of the string's key, and store or look up the key. */
    method Action(str: seq<Byte>, op: Op) returns (r: bool)
      requires Valid() && Readable(str)
      modifies entry
      ensures Valid()
      ensures op == Query || Key(str) == [] ==> entry[..] == old(entry[..])
      ensures Key(str) == [] ==> (r <==> op == Insert)
      ensures Key(str) != [] && op == Query ==> (r <==> Key(str) in Contents())
      ensures Key(str) != [] && op == Insert && r ==> Contents() == old(Contents()) + {Key(str)}
      ensures op == Insert && Key(str) in old(Contents()) ==> r && entry[..] == old(entry[..])
      ensures op == Insert && !r ==>
        && entry[..] == old(entry[..]) && Key(str) !in Contents()
        && size < EnoughFor(|Contents()|)
        && forall c :: 0 <= c < ChainLen(size) ==> Used(entry[Slot(hash(Key(str)), c, size)])
      // an insert fails only if all slots of the chain are in use, and stores a new key in
      // the first that is not
      ensures op == Insert && !r ==> forall c: nat {:trigger Slot(hash(Key(str)), c, size)} ::
        c < 3 || 16384 * (c + 2) <= size ==> Used(entry[Slot(hash(Key(str)), c, size)])
      ensures op == Insert && r && Key(str) != [] && Key(str) !in old(Contents()) ==>
        exists c: nat {:trigger Slot(hash(Key(str)), c, size)} :: (c < 3 || 16384 * (c + 2) <= size)
          && !Used(old(entry[..])[Slot(hash(Key(str)), c, size)])
          && entry[..] == old(entry[..])[Slot(hash(Key(str)), c, size) := Pad(Key(str))]
          && forall d: nat {:trigger Slot(hash(Key(str)), d, size)} :: d < c ==>
               Used(old(entry[..])[Slot(hash(Key(str)), d, size)])
    {
      if str[0] == 0 {
        return op == Insert;
      }
      var key := Key(str);
      var chainLen := ChainLen(size);
      var chain := hash(key);
      ghost var t := entry[..];
      for c := 0 to chainLen
        invariant entry[..] == t
        invariant forall d :: 0 <= d < c ==> (op == Insert ==> Used(t[Slot(chain, d, size)]))
        invariant forall d :: 0 <= d < c ==> Key(t[Slot(chain, d, size)]) != key
      {
        var idx := Slot(chain, c, size);
        if entry[idx][0] == 0 && op == Insert {
          NotStoredBefore(t, hash, key, c);
          StoreKeepsTableOk(t, hash, key, c);
          entry[idx] := Pad(key);
          assert entry[..] == t[idx := Pad(key)];
          ChainLenIs(size, c);
          return true;
        }
        StrNEqualIsKeyEquality(str, entry[idx], 0);
        if StrNEqual(str, entry[idx], 0) {
          assert key in Keys(t);
          assert Keys(t) + {key} == Keys(t);
          return true;
        }
      }
      NotOnChain(t, hash, key);
      if op == Insert {
        FullChainMeansSmall(t, hash, chain);
        forall c: nat | c < 3 || 16384 * (c + 2) <= size ensures Used(t[Slot(chain, c, size)]) {
          ChainLenIs(size, c);
        }
      }
      return false;
    }

    /* db_rehash: all or nothing. Either the table has the new size and holds the same
       keys, or nothing has changed and the new size was too small for a guarantee. */
    method Rehash(newSize: nat) returns (r: bool)
      requires Valid() && PowerOf2(newSize)
      modifies this
      ensures Valid() && Contents() == old(Contents())
      ensures r ==> size == newSize && fresh(entry)
      ensures !r ==> entry == old(entry) && size == old(size) && newSize < EnoughFor(|Contents()|)
      // it fails only where a chain is full, in a table that holds the keys before that one
      ensures !r ==> exists t: Table, i ::
        && 0 <= i < |entry[..]| && |t| == newSize && TableOk(t, hash)
        && Keys(t) == Keys(entry[..][..i]) && Key(entry[..][i]) !in Keys(t)
        && forall c {:trigger Slot(hash(Key(entry[..][i])), c, newSize)} ::
             0 <= c < ChainLen(newSize) ==> Used(t[Slot(hash(Key(entry[..][i])), c, newSize)])
    {
      var db := new Db(hash, newSize);
      ghost var t := entry[..];
      for i := 0 to size
        invariant fresh(db) && fresh(db.entry) && db.hash == hash && db.size == newSize && db.Valid()
        invariant entry[..] == t && entry == old(entry) && size == old(size)
        invariant db.Contents() == Keys(t[..i])
      {
        KeysOfPrefix(t, i);
        var ok := db.Action(entry[i], Insert);
        if !ok {
          SubsetCount(db.Contents(), Contents());
          return false;
        }
      }
      assert t[..size] == t;
      entry := db.entry;
      size := db.size;
      r := true;
    }

    /* Double the table until a rehash succeeds. */
    method Enlarge()
      requires Valid()
      modifies this
      ensures Valid() && Contents() == old(Contents()) && fresh(entry)
      ensures 2 * old(size) <= size
      ensures size == 2 * old(size) || size < 2 * EnoughFor(|old(Contents())|)
    {
      ghost var ks := Contents();
      var newSize: nat := 2 * size;
      var ok := Rehash(newSize);
      while !ok
        invariant Valid() && Contents() == ks && PowerOf2(newSize) && 2 * old(size) <= newSize
        invariant ok ==> size == newSize && fresh(entry)
        invariant !ok ==> entry == old(entry) && size == old(size) && newSize < EnoughFor(|ks|)
        invariant newSize == 2 * old(size) || newSize < 2 * EnoughFor(|ks|)
        decreases !ok, EnoughFor(|ks|) - newSize
      {
        Doubled(newSize);
        newSize := 2 * newSize;
        ok := Rehash(newSize);
      }
    }

    /* db_insert: always ends, for any hash function, with the key stored and the table
       at most twice as large as the number of keys can demand. */
    method Add(str: seq<Byte>)
      requires Valid() && Readable(str)
      modifies this, entry
      ensures Valid() && (entry == old(entry) || fresh(entry))
      ensures Contents() == old(Contents()) + (if Key(str) == [] then {} else {Key(str)})
      ensures size == old(size) || (old(size) < size < 2 * EnoughFor(|old(Contents())|))
      // the table grows only for a new key whose chain is full
      ensures size != old(size) ==>
        && Key(str) !in old(Contents())
        && forall c: nat {:trigger Slot(hash(Key(str)), c, old(size))} ::
             c < 3 || 16384 * (c + 2) <= old(size) ==> Used(old(entry[..])[Slot(hash(Key(str)), c, old(size))])
    {
      ghost var t := entry[..];
      var ok := Action(str, Insert);
      ghost var full := !ok;
      while !ok
        invariant Valid() && (entry == old(entry) || fresh(entry))
        invariant if ok then Contents() == old(Contents()) + (if Key(str) == [] then {} else {Key(str)})
                  else Contents() == old(Contents()) && Key(str) != [] && size < EnoughFor(|Contents()|)
        invariant size == old(size) || (old(size) < size < 2 * EnoughFor(|old(Contents())|))
        invariant !ok || size != old(size) ==> full
        decreases !ok, EnoughFor(|old(Contents())|) - size
      {
        Enlarge();
        ok := Action(str, Insert);
      }
    }
  }

  lemma KeysOfPrefix(t: Table, i: nat)
    requires EntriesOk(t) && i < |t|
    ensures Readable(t[i]) && Keys(t[..i]) <= Keys(t)
    ensures Keys(t[..i + 1]) == Keys(t[..i]) + (if Key(t[i]) == [] then {} else {Key(t[i])})
    ensures Used(t[i]) <==> Key(t[i]) != []
  {
  }

  lemma Doubled(n: nat)
    requires PowerOf2(n)
    ensures PowerOf2(2 * n) && n < 2 * n
  {
  }

  lemma FullChainMeansSmall(t: Table, hash: Hash, h: nat)
    requires TableOk(t, hash)
    requires forall c :: 0 <= c < ChainLen(|t|) ==> Used(t[Slot(h, c, |t|)])
    ensures |t| < EnoughFor(|Keys(t)|)
  {
    if |t| >= EnoughFor(|Keys(t)|) {
      EnoughRoom(t, hash, h);
    }
  }

  lemma NotStoredBefore(t: Table, hash: Hash, k: seq<Byte>, c: nat)
    requires TableOk(t, hash) && c < ChainLen(|t|)
    requires forall d :: 0 <= d < c ==> Key(t[Slot(hash(k), d, |t|)]) != k
    requires !Used(t[Slot(hash(k), c, |t|)])
    ensures k !in Keys(t)
  {
  }

  lemma NotOnChain(t: Table, hash: Hash, k: seq<Byte>)
    requires TableOk(t, hash)
    requires forall d :: 0 <= d < ChainLen(|t|) ==> Key(t[Slot(hash(k), d, |t|)]) != k
    ensures k !in Keys(t)
  {
  }
}
