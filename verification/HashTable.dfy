/**
  The open-addressing hash table of topics/microarchitecture/cache_friendly_hash_table.cpp (lines 12-62): linear
  probing, growth by rehashing at half load, no deletion. insert and rehash call each other.
*/
module HashTables {
  import opened Options
  import opened Sealing
  import Circle

  datatype Entry<K, V> = Entry(key: K, value: V)

  type Cells<K, V> = seq<Option<Entry<K, V>>>

  /** Where the probe for a key starts. */
  function Home<K>(hash: K -> nat, key: K, cap: nat): (i: nat)
    requires 0 < cap
    ensures i < cap
  {
    hash(key) % cap
  }

  /** The d-th cell probed for the key. */
  ghost function Probe<K, V>(cells: Cells<K, V>, hash: K -> nat, key: K, d: nat): Option<Entry<K, V>>
    requires d < |cells|
  {
    cells[Circle.At(Home(hash, key, |cells|), d, |cells|)]
  }

  /** The first n cells probed hold other keys. */
  ghost predicate Passes<K, V>(cells: Cells<K, V>, hash: K -> nat, key: K, n: nat)
    requires n <= |cells|
  {
    forall d :: 0 <= d < n ==> Probe(cells, hash, key, d).Some? && Probe(cells, hash, key, d).value.key != key
  }

  /** Every entry is where the probe for its key first meets that key, and the entries are those of the map. */
  ghost predicate Represents<K, V>(cells: Cells<K, V>, hash: K -> nat, m: map<K, V>) {
    forall z {:trigger Peek(z)} :: Peek(z) ==>
      && (forall i :: 0 <= i < |cells| && cells[i].Some? ==>
           && cells[i].value.key in m && m[cells[i].value.key] == cells[i].value.value
           && Passes(cells, hash, cells[i].value.key,
                     Circle.Dist(Home(hash, cells[i].value.key, |cells|), i, |cells|)))
      && (forall k :: k in m ==> exists i :: 0 <= i < |cells| && cells[i].Some? && cells[i].value.key == k)
  }

  /** No key is in two cells. */
  lemma Distinct<K, V>(cells: Cells<K, V>, hash: K -> nat, m: map<K, V>, i: nat, j: nat)
    requires Represents(cells, hash, m) && i < |cells| && j < |cells|
    requires cells[i].Some? && cells[j].Some? && cells[i].value.key == cells[j].value.key
    ensures i == j
  {
    assert Peek(0);
    var key, cap := cells[i].value.key, |cells|;
    var home := Home(hash, key, cap);
    Circle.AtDist(home, i, cap);
    Circle.AtDist(home, j, cap);
    var di, dj := Circle.Dist(home, i, cap), Circle.Dist(home, j, cap);
    if di < dj {
      PassesAt(cells, hash, key, dj, di);
    } else if dj < di {
      PassesAt(cells, hash, key, di, dj);
    }
  }

  lemma PassesAt<K, V>(cells: Cells<K, V>, hash: K -> nat, key: K, n: nat, d: nat)
    requires n <= |cells| && d < n && Passes(cells, hash, key, n)
    ensures Probe(cells, hash, key, d).Some? && Probe(cells, hash, key, d).value.key != key
  {
  }

  /** The probe has passed only other keys when it meets the key or an empty cell: there is the answer. */
  lemma ProbeDecides<K, V>(cells: Cells<K, V>, hash: K -> nat, m: map<K, V>, key: K, d: nat)
    requires Represents(cells, hash, m) && d <= |cells| && Passes(cells, hash, key, d)
    ensures d < |cells| && Probe(cells, hash, key, d).None? ==> key !in m
    ensures d < |cells| && Probe(cells, hash, key, d).Some? && Probe(cells, hash, key, d).value.key == key ==>
              key in m && m[key] == Probe(cells, hash, key, d).value.value
    ensures d == |cells| ==> key !in m
  {
    assert Peek(0);
    var cap := |cells|;
    if key in m && (d == cap || Probe(cells, hash, key, d).None?) {
      var i :| 0 <= i < cap && cells[i].Some? && cells[i].value.key == key;
      var home := Home(hash, key, cap);
      Circle.AtDist(home, i, cap);
      var e := Circle.Dist(home, i, cap);
      if e < d {
        PassesAt(cells, hash, key, d, e);
      } else if d < e {
        PassesAt(cells, hash, key, e, d);
      }
    }
  }

  /** Storing the key where its probe stops gives the map with that key set. */
  lemma StoreRepresents<K, V>(cells: Cells<K, V>, hash: K -> nat, m: map<K, V>, key: K, value: V, d: nat)
    requires Represents(cells, hash, m) && d < |cells| && Passes(cells, hash, key, d)
    requires Probe(cells, hash, key, d).Some? ==> Probe(cells, hash, key, d).value.key == key
    ensures Represents(cells[Circle.At(Home(hash, key, |cells|), d, |cells|) := Some(Entry(key, value))], hash,
                       m[key := value])
    ensures key in m <==> Probe(cells, hash, key, d).Some?
  {
    var cap := |cells|;
    var home := Home(hash, key, cap);
    var at := Circle.At(home, d, cap);
    Circle.DistAt(home, d, cap);
    ProbeDecides(cells, hash, m, key, d);
    assert Peek(0);
    var now := cells[at := Some(Entry(key, value))];
    forall i | 0 <= i < cap && now[i].Some?
      ensures now[i].value.key in m[key := value] && m[key := value][now[i].value.key] == now[i].value.value
      ensures Passes(now, hash, now[i].value.key, Circle.Dist(Home(hash, now[i].value.key, cap), i, cap))
    {
      if i != at && now[i].value.key == key {
        Distinct(cells, hash, m, i, at);
      }
      if i == at {
        StillPasses(cells, hash, key, d, at, key, value);
      } else {
        var k := now[i].value.key;
        StillPasses(cells, hash, k, Circle.Dist(Home(hash, k, cap), i, cap), at, key, value);
      }
    }
    var m' := m[key := value];
    forall k | k in m' ensures exists i :: 0 <= i < cap && now[i].Some? && now[i].value.key == k {
      if k == key {
        assert now[at].value.key == k;
      } else {
        var i :| 0 <= i < cap && cells[i].Some? && cells[i].value.key == k;
        assert now[i] == cells[i];
      }
    }
  }

  /** A path that avoids the key still passes when that key is stored on it. */
  lemma StillPasses<K, V>(cells: Cells<K, V>, hash: K -> nat, k: K, n: nat, at: nat, key: K, value: V)
    requires n <= |cells| && at < |cells| && Passes(cells, hash, k, n)
    requires k != key || forall d :: 0 <= d < n ==> Circle.At(Home(hash, k, |cells|), d, |cells|) != at
    ensures Passes(cells[at := Some(Entry(key, value))], hash, k, n)
  {
    var now := cells[at := Some(Entry(key, value))];
    forall d | 0 <= d < n ensures Probe(now, hash, k, d).Some? && Probe(now, hash, k, d).value.key != k {
      assert Probe(cells, hash, k, d).Some? && Probe(cells, hash, k, d).value.key != k;
    }
  }

  /** Fewer keys than cells leave an empty cell, so no probe passes them all. */
  lemma {:induction false} KeysOfPrefix<K, V>(cells: Cells<K, V>, hash: K -> nat, m: map<K, V>, n: nat)
    returns (keys: set<K>)
    requires Represents(cells, hash, m) && n <= |cells|
    requires forall i :: 0 <= i < |cells| ==> cells[i].Some?
    ensures |keys| == n && keys <= m.Keys
    ensures forall k :: k in keys ==> exists i :: 0 <= i < n && cells[i].value.key == k
  {
    if n == 0 {
      keys := {};
    } else {
      keys := KeysOfPrefix(cells, hash, m, n - 1);
      var k := cells[n - 1].value.key;
      if k in keys {
        var i :| 0 <= i < n - 1 && cells[i].value.key == k;
        Distinct(cells, hash, m, i, n - 1);
      }
      assert k in m by { assert Peek(0); }
      keys := keys + {k};
    }
  }

  lemma SomeCellIsEmpty<K, V>(cells: Cells<K, V>, hash: K -> nat, m: map<K, V>)
    requires Represents(cells, hash, m) && |m| < |cells|
    ensures exists i :: 0 <= i < |cells| && cells[i].None?
  {
    if forall i :: 0 <= i < |cells| ==> cells[i].Some? {
      var keys := KeysOfPrefix(cells, hash, m, |cells|);
      Circle.SubsetSize(keys, m.Keys);
    }
  }

  lemma ProbeStops<K, V>(cells: Cells<K, V>, hash: K -> nat, m: map<K, V>, key: K)
    requires Represents(cells, hash, m) && |m| < |cells|
    ensures !Passes(cells, hash, key, |cells|)
  {
    SomeCellIsEmpty(cells, hash, m);
    var i :| 0 <= i < |cells| && cells[i].None?;
    Circle.AtDist(Home(hash, key, |cells|), i, |cells|);
    assert Probe(cells, hash, key, Circle.Dist(Home(hash, key, |cells|), i, |cells|)) == cells[i];
  }

  lemma SizeOf<K, V>(m: map<K, V>, k: K, v: V)
    ensures |m[k := v]| == |m| + if k in m then 0 else 1
  {
    assert m[k := v].Keys == m.Keys + {k};
    assert |m[k := v]| == |m[k := v].Keys| && |m| == |m.Keys|;
  }

  /** During rehash: `now` is the part of `all` that the first i cells hold. */
  ghost predicate Moved<K, V>(cells: Cells<K, V>, i: nat, now: map<K, V>, all: map<K, V>) {
    forall z {:trigger Peek(z)} :: Peek(z) ==>
      && i <= |cells| && now.Keys <= all.Keys
      && (forall k :: k in now ==> now[k] == all[k])
      && (forall j :: 0 <= j < i && cells[j].Some? ==> cells[j].value.key in now)
  }

  lemma NothingMoved<K, V>(cells: Cells<K, V>, all: map<K, V>)
    ensures Moved(cells, 0, map[], all)
  {
  }

  lemma MoveNext<K, V>(cells: Cells<K, V>, hash: K -> nat, i: nat, now: map<K, V>, all: map<K, V>)
    requires i < |cells| && Represents(cells, hash, all) && Moved(cells, i, now, all)
    ensures Moved(cells, i + 1, if cells[i].Some? then now[cells[i].value.key := cells[i].value.value] else now, all)
  {
    assert Peek(0);
  }

  lemma AllMoved<K, V>(cells: Cells<K, V>, hash: K -> nat, now: map<K, V>, all: map<K, V>)
    requires Represents(cells, hash, all) && Moved(cells, |cells|, now, all)
    ensures now == all
  {
    assert Peek(0);
  }

  class HashTable<K(==), V> {
    const hash: K -> nat
    var table: array<Option<Entry<K, V>>>
    var size: nat
    /** What the table maps. */
    ghost var contents: map<K, V>

    ghost predicate Valid()
      reads this, table
    {
      && 0 < table.Length
      && size == |contents| <= table.Length
      && Represents(table[..], hash, contents)
    }

    constructor (hash: K -> nat, capacity: nat)
      requires capacity >= 1
      ensures Valid() && fresh(table) && contents == map[] && this.hash == hash && table.Length == capacity
    {
      this.hash := hash;
      table := new Option<Entry<K, V>>[capacity](_ => None);
      size := 0;
      contents := map[];
    }

    /** The loop that insert and find share: how many cells it passes before the key or an empty cell stops it. */
    method Search(key: K) returns (j: nat)
      requires Valid()
      ensures j <= table.Length && Passes(table[..], hash, key, j)
      ensures j < table.Length && Probe(table[..], hash, key, j).Some? ==>
                Probe(table[..], hash, key, j).value.key == key
    {
      var i := Home(hash, key, table.Length);
      j := 0;
      while j < table.Length
        invariant 0 <= j <= table.Length
        invariant Passes(table[..], hash, key, j)
      {
        var idx := (i + j) % table.Length;
        Circle.ByRemainder(i, j, table.Length);
        assert table[idx] == Probe(table[..], hash, key, j);
        if table[idx].None? || table[idx].value.key == key {
          return;
        }
        j := j + 1;
      }
    }

    /** insert; it grows the table exactly when it is at least half full, and then once. */
    method Insert(key: K, value: V) returns (ok: bool)
      requires Valid()
      modifies this, table
      decreases if 2 * size >= table.Length then 2 else 0
      ensures Valid() && ok && contents == old(contents)[key := value]
      ensures if 2 * old(size) >= old(table.Length)
              then fresh(table) && table.Length == 2 * old(table.Length)
              else table == old(table)
    {
      if size * 2 >= table.Length {
        Rehash();
      }
      var j := Search(key);
      ProbeStops(table[..], hash, contents, key);
      if j == table.Length {
        // The source would rehash and insert again here.
        assert false;
      }
      var idx := (Home(hash, key, table.Length) + j) % table.Length;
      Circle.ByRemainder(Home(hash, key, table.Length), j, table.Length);
      Store(idx, key, value, j);
      ok := true;
    }

    /** The end of insert: fill the cell or overwrite its value. */
    method Store(idx: nat, key: K, value: V, ghost j: nat)
      requires Valid() && size < table.Length
      requires j < table.Length && idx == Circle.At(Home(hash, key, table.Length), j, table.Length)
      requires Passes(table[..], hash, key, j) && (table[idx].Some? ==> table[idx].value.key == key)
      modifies this, table
      ensures Valid() && contents == old(contents)[key := value] && table == old(table)
    {
      StoreRepresents(table[..], hash, contents, key, value, j);
      SizeOf(contents, key, value);
      ghost var next := table[..][idx := Some(Entry(key, value))];
      if table[idx].None? {
        size := size + 1;
      }
      table[idx] := Some(Entry(key, value));
      assert table[..] == next;
      contents := contents[key := value];
    }

    /** rehash: the same entries in a table of twice the capacity. */
    method Rehash()
      requires Valid()
      modifies this, table
      decreases 1
      ensures Valid() && contents == old(contents) && size == old(size)
      ensures fresh(table) && table.Length == 2 * old(table.Length)
    {
      var was := table;
      ghost var cells, all := table[..], contents;
      table := new Option<Entry<K, V>>[2 * was.Length](_ => None);
      size := 0;
      contents := map[];
      NothingMoved(cells, all);
      var i := 0;
      while i < was.Length
        invariant 0 <= i <= was.Length && was[..] == cells
        invariant Valid() && fresh(table) && table.Length == 2 * was.Length
        invariant size <= i && Moved(cells, i, contents, all)
      {
        assert was[i] == cells[i];
        if was[i].Some? {
          var e := was[i].value;
          SizeOf(contents, e.key, e.value);
          MoveNext(cells, hash, i, contents, all);
          var _ := Insert(e.key, e.value);
        } else {
          MoveNext(cells, hash, i, contents, all);
        }
        i := i + 1;
      }
      AllMoved(cells, hash, contents, all);
    }

    /** find answers as the map does. */
    method Find(key: K) returns (out: Option<V>)
      requires Valid()
      ensures out == if key in contents then Some(contents[key]) else None
    {
      var j := Search(key);
      ProbeDecides(table[..], hash, contents, key, j);
      if j == table.Length {
        return None;
      }
      var idx := (Home(hash, key, table.Length) + j) % table.Length;
      Circle.ByRemainder(Home(hash, key, table.Length), j, table.Length);
      return if table[idx].Some? then Some(table[idx].value.value) else None;
    }

    /** size() counts the distinct keys inserted. */
    method Size() returns (n: nat)
      requires Valid()
      ensures n == |contents|
    {
      n := size;
    }
  }
}
