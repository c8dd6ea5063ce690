/** What the event log needs of Pebble: an atomic batch, and an iterator over a
    snapshot of the keys of a window in byte order. */
module KeyValueStore {
  import opened Basics
  import opened ByteOrder
  import opened PebbleKeys

  type Entries = map<Bytes, Bytes>

  function Window(entries: Entries, lower: Bytes, upper: Option<Bytes>): Entries {
    map k | k in entries && InRange(k, lower, upper) :: entries[k]
  }

  /** at is the least of the keys that are not before target. */
  ghost predicate SeekLands(keys: set<Bytes>, target: Bytes, at: Option<Bytes>) {
    match at
    case None => forall k :: k in keys ==> !LexLe(target, k)
    case Some(a) => a in keys && LexLe(target, a) && forall k :: k in keys && LexLe(target, k) ==> LexLe(a, k)
  }

  /** at is the least of the keys after current. */
  ghost predicate NextLands(keys: set<Bytes>, current: Bytes, at: Option<Bytes>) {
    match at
    case None => forall k :: k in keys ==> !LexLt(current, k)
    case Some(a) => a in keys && LexLt(current, a) && forall k :: k in keys && LexLt(current, k) ==> LexLe(a, k)
  }

  class RangeIterator {
    const window: Entries
    var at: Option<Bytes>

    constructor (entries: Entries, lower: Bytes, upper: Option<Bytes>)
      ensures window == Window(entries, lower, upper)
      ensures at == None
    {
      window := Window(entries, lower, upper);
      at := None;
    }

    method SeekGE(target: Bytes) returns (ok: bool)
      modifies this
      ensures ok == at.Some? && SeekLands(window.Keys, target, at)
    {
      var candidates := set k | k in window && LexLe(target, k);
      if candidates == {} {
        assert forall k :: k in window && LexLe(target, k) ==> k in candidates;
        at := None;
      } else {
        LeastExists(candidates);
        var k :| k in candidates && forall j :: j in candidates ==> LexLe(k, j);
        at := Some(k);
      }
      ok := at.Some?;
    }

    method Next() returns (ok: bool)
      requires at.Some?
      modifies this
      ensures ok == at.Some? && NextLands(window.Keys, old(at.value), at)
    {
      var candidates := set k | k in window && LexLt(at.value, k);
      if candidates == {} {
        assert forall k :: k in window && LexLt(at.value, k) ==> k in candidates;
        at := None;
      } else {
        LeastExists(candidates);
        var k :| k in candidates && forall j :: j in candidates ==> LexLe(k, j);
        at := Some(k);
      }
      ok := at.Some?;
    }
  }

  class Store {
    var entries: Entries

    constructor ()
      ensures entries == map[]
    {
      entries := map[];
    }

    method Get(key: Bytes) returns (value: Option<Bytes>)
      ensures value == if key in entries then Some(entries[key]) else None
    {
      value := if key in entries then Some(entries[key]) else None;
    }

    // Both writes of a batch take effect, or neither.
    method Commit(key1: Bytes, value1: Bytes, key2: Bytes, value2: Bytes)
      modifies this
      ensures entries == old(entries)[key1 := value1][key2 := value2]
    {
      entries := entries[key1 := value1][key2 := value2];
    }

    method NewIter(lower: Bytes, upper: Option<Bytes>) returns (it: RangeIterator)
      ensures fresh(it) && it.window == Window(entries, lower, upper)
    {
      it := new RangeIterator(entries, lower, upper);
    }
  }
}
