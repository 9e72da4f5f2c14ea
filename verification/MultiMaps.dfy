/**
 * `MultiMap`: boxed items indexed by two hash maps whose keys are raw pointers into the boxes.
 *
 * The heap of live boxes is explicit. A hash map operation may read through any key pointer of that
 * map (hashing, comparing, rehashing on growth), so every one of them requires all its key pointers to
 * be live. Freeing requires a live box, so no box can be freed twice.
 */
module MultiMaps {
  import opened Types
  import opened Sorting

  datatype Item<K1, K2, V> = Item(k1: K1, k2: K2, v: V)

  type Ptr = nat

  // ---------- the simple view: a set of items, at most one per key on either side ----------

  ghost predicate DoublyKeyed<K1(!new), K2(!new), V(!new)>(s: set<Item<K1, K2, V>>) {
    forall a, b :: a in s && b in s && (a.k1 == b.k1 || a.k2 == b.k2) ==> a == b
  }

  ghost predicate Has1<K1(!new), K2(!new), V(!new)>(s: set<Item<K1, K2, V>>, k: K1) {
    exists t :: t in s && t.k1 == k
  }

  ghost predicate Has2<K1(!new), K2(!new), V(!new)>(s: set<Item<K1, K2, V>>, k: K2) {
    exists t :: t in s && t.k2 == k
  }

  ghost function Find1<K1(!new), K2(!new), V(!new)>(s: set<Item<K1, K2, V>>, k: K1): Option<V> {
    if Has1(s, k) then var t :| t in s && t.k1 == k; Some(t.v) else None
  }

  ghost function Find2<K1(!new), K2(!new), V(!new)>(s: set<Item<K1, K2, V>>, k: K2): Option<V> {
    if Has2(s, k) then var t :| t in s && t.k2 == k; Some(t.v) else None
  }

  ghost function Without1<K1(!new), K2(!new), V(!new)>(s: set<Item<K1, K2, V>>, k: K1): set<Item<K1, K2, V>> {
    set t | t in s && t.k1 != k
  }

  ghost function Without2<K1(!new), K2(!new), V(!new)>(s: set<Item<K1, K2, V>>, k: K2): set<Item<K1, K2, V>> {
    set t | t in s && t.k2 != k
  }

  datatype Op<K1, K2, V> =
    | Insert(k1: K1, k2: K2, v: V)
    | Get1(k1: K1)
    | Get2(k2: K2)
    | Remove1(k1: K1)
    | Remove2(k2: K2)

  datatype Reply<V> = Inserted | Rejected | Found(value: Option<V>)

  ghost function Step<K1(!new), K2(!new), V(!new)>(
    s: set<Item<K1, K2, V>>, op: Op<K1, K2, V>): (set<Item<K1, K2, V>>, Reply<V>)
  {
    match op
    case Insert(k1, k2, v) => if Has1(s, k1) || Has2(s, k2) then (s, Rejected) else (s + {Item(k1, k2, v)}, Inserted)
    case Get1(k1) => (s, Found(Find1(s, k1)))
    case Get2(k2) => (s, Found(Find2(s, k2)))
    case Remove1(k1) => (Without1(s, k1), Found(Find1(s, k1)))
    case Remove2(k2) => (Without2(s, k2), Found(Find2(s, k2)))
  }

  ghost function Replies<K1(!new), K2(!new), V(!new)>(s: set<Item<K1, K2, V>>, ops: seq<Op<K1, K2, V>>): seq<Reply<V>>
    decreases |ops|
  {
    if ops == [] then []
    else
      var (s', r) := Step(s, ops[0]);
      [r] + Replies(s', ops[1..])
  }

  // ---------- the implementation ----------

  class MultiMap<K1(==, !new), K2(==, !new), V(!new)> {
    var heap: map<Ptr, Item<K1, K2, V>>
    var next: Ptr
    // key pointer -> item pointer
    var map1: map<Ptr, Ptr>
    var map2: map<Ptr, Ptr>
    ghost var freed: seq<Ptr>

    /** Boxes are allocated at `0..next`; each is live or was freed exactly once. */
    ghost predicate Accounted()
      reads this
    {
      && Distinct(freed)
      && (forall p: Ptr :: p in heap || p in freed <==> p < next)
      && (forall p: Ptr :: p in freed ==> p !in heap)
    }

    /** Both indexes hold exactly the live boxes, under keys that point into those same boxes. */
    ghost predicate Valid()
      reads this
    {
      && Accounted()
      && map1.Keys == heap.Keys && map2.Keys == heap.Keys
      && (forall p :: p in heap ==> map1[p] == p && map2[p] == p)
      && (forall p, q :: p in heap && q in heap && (heap[p].k1 == heap[q].k1 || heap[p].k2 == heap[q].k2) ==> p == q)
    }

    ghost function Contents(): set<Item<K1, K2, V>>
      reads this
    {
      set p | p in heap :: heap[p]
    }

    constructor ()
      ensures Valid() && Contents() == {} && next == 0
    {
      heap, next, map1, map2, freed := map[], 0, map[], map[], [];
    }

    /** The key pointer of `map1` that points to an equal key. */
    method Slot1(k: K1) returns (r: Option<Ptr>)
      requires map1.Keys <= heap.Keys
      ensures r.Some? ==> r.value in map1 && heap[r.value].k1 == k
      ensures r.None? ==> forall p :: p in map1 ==> heap[p].k1 != k
    {
      if p :| p in map1 && heap[p].k1 == k {
        return Some(p);
      }
      return None;
    }

    method Slot2(k: K2) returns (r: Option<Ptr>)
      requires map2.Keys <= heap.Keys
      ensures r.Some? ==> r.value in map2 && heap[r.value].k2 == k
      ensures r.None? ==> forall p :: p in map2 ==> heap[p].k2 != k
    {
      if p :| p in map2 && heap[p].k2 == k {
        return Some(p);
      }
      return None;
    }

    method Free(p: Ptr)
      requires p in heap && Accounted()
      modifies this`heap, this`freed
      ensures Accounted()
      ensures heap == old(heap) - {p} && freed == old(freed) + [p]
    {
      heap := heap - {p};
      freed := freed + [p];
    }

    method Insert(k1: K1, k2: K2, v: V) returns (ok: bool)
      requires Valid()
      modifies this
      ensures Valid() && freed == old(freed)
      ensures (Contents(), if ok then Inserted else Rejected) == Step(old(Contents()), Op.Insert(k1, k2, v))
      ensures next == old(next) + (if ok then 1 else 0)
    {
      var a := Slot1(k1);
      var b := Slot2(k2);
      InContents(k1, k2);
      if a.Some? || b.Some? {
        return false;
      }
      Add(Item(k1, k2, v));
      return true;
    }

    /** Box an item and enter it in both indexes. */
    method Add(item: Item<K1, K2, V>)
      requires Valid() && forall p :: p in heap ==> heap[p].k1 != item.k1 && heap[p].k2 != item.k2
      modifies this
      ensures Valid() && freed == old(freed) && next == old(next) + 1
      ensures Contents() == old(Contents()) + {item}
    {
      var p := next;
      heap := heap[p := item];
      next := next + 1;
      // Growing a table rehashes every key pointer it holds
      assert map1.Keys + {p} <= heap.Keys && map2.Keys + {p} <= heap.Keys;
      map1 := map1[p := p];
      map2 := map2[p := p];
      AddedOne(p);
    }

    lemma InContents(k1: K1, k2: K2)
      ensures Has1(Contents(), k1) <==> exists p :: p in heap && heap[p].k1 == k1
      ensures Has2(Contents(), k2) <==> exists p :: p in heap && heap[p].k2 == k2
    {
      if p :| p in heap && heap[p].k1 == k1 {
        assert heap[p] in Contents();
      }
      if p :| p in heap && heap[p].k2 == k2 {
        assert heap[p] in Contents();
      }
    }

    twostate lemma AddedOne(p: Ptr)
      requires p !in old(heap) && p in heap && heap == old(heap)[p := heap[p]]
      ensures Contents() == old(Contents()) + {heap[p]}
    {
      forall t | t in old(Contents())
        ensures t in Contents()
      {
        var q :| q in old(heap) && old(heap[q]) == t;
        assert q in heap && heap[q] == t;
      }
      assert heap[p] in Contents();
    }

    method Get1(k1: K1) returns (r: Option<V>)
      requires Valid()
      ensures r == Find1(Contents(), k1)
    {
      var slot := Slot1(k1);
      if slot.None? {
        return None;
      }
      var item := map1[slot.value];
      assert heap[item] in Contents();
      return Some(heap[item].v);
    }

    method Get2(k2: K2) returns (r: Option<V>)
      requires Valid()
      ensures r == Find2(Contents(), k2)
    {
      var slot := Slot2(k2);
      if slot.None? {
        return None;
      }
      var item := map2[slot.value];
      assert heap[item] in Contents();
      return Some(heap[item].v);
    }

    /** The effect on the contents of freeing one live box. */
    twostate lemma FreedOne(p: Ptr)
      requires old(Valid()) && p in old(heap) && heap == old(heap) - {p}
      ensures Contents() == old(Contents()) - {old(heap[p])}
      ensures Contents() == Without1(old(Contents()), old(heap[p].k1)) == Without2(old(Contents()), old(heap[p].k2))
      ensures Find1(old(Contents()), old(heap[p].k1)) == Some(old(heap[p].v)) == Find2(old(Contents()), old(heap[p].k2))
    {
      var s := old(Contents());
      assert old(heap[p]) in s;
      forall t
        ensures t in Contents() <==> t in s && t != old(heap[p])
      {
        if t in Contents() {
          var q :| q in heap && heap[q] == t;
          assert q in old(heap) && old(heap[q]) == t;
        }
        if t in s && t != old(heap[p]) {
          var q :| q in old(heap) && old(heap[q]) == t;
          assert q in heap && heap[q] == t;
        }
      }
      forall t | t in s && (t.k1 == old(heap[p].k1) || t.k2 == old(heap[p].k2))
        ensures t == old(heap[p])
      {
        var q :| q in old(heap) && old(heap[q]) == t;
      }
    }

    /** The box is still alive while its second key is looked up, and freed last. */
    method Remove1(k1: K1) returns (r: Option<V>)
      requires Valid()
      modifies this
      ensures Valid() && next == old(next)
      ensures Contents() == Without1(old(Contents()), k1) && r == Find1(old(Contents()), k1)
      ensures |freed| == |old(freed)| + (if r.Some? then 1 else 0)
    {
      var slot := Slot1(k1);
      if slot.None? {
        assert Without1(Contents(), k1) == Contents();
        return None;
      }
      var item := map1[slot.value];
      map1 := map1 - {slot.value};
      var other := Slot2(heap[item].k2);
      assert other == Some(item) by {
        assert item in map2;
      }
      map2 := map2 - {other.value};
      r := Some(heap[item].v);
      Free(item);
      FreedOne(item);
    }

    method Remove2(k2: K2) returns (r: Option<V>)
      requires Valid()
      modifies this
      ensures Valid() && next == old(next)
      ensures Contents() == Without2(old(Contents()), k2) && r == Find2(old(Contents()), k2)
      ensures |freed| == |old(freed)| + (if r.Some? then 1 else 0)
    {
      var slot := Slot2(k2);
      if slot.None? {
        assert Without2(Contents(), k2) == Contents();
        return None;
      }
      var item := map2[slot.value];
      map2 := map2 - {slot.value};
      var other := Slot1(heap[item].k1);
      assert other == Some(item) by {
        assert item in map1;
      }
      map1 := map1 - {other.value};
      r := Some(heap[item].v);
      Free(item);
      FreedOne(item);
    }

    /** `Drop`: the first index is cleared without touching its keys, the second is drained box by box. */
    method Drop()
      requires Valid()
      modifies this
      ensures heap == map[] && next == old(next)
      ensures Distinct(freed) && forall p: Ptr :: p in freed <==> p < next
      ensures old(freed) <= freed
    {
      map1 := map[];
      while map2 != map[]
        invariant Accounted() && next == old(next) && old(freed) <= freed
        invariant map2.Keys == heap.Keys && forall p :: p in map2 ==> map2[p] == p
        decreases map2.Keys
      {
        var p :| p in map2;
        var item := map2[p];
        map2 := map2 - {p};
        Free(item);
      }
      assert heap.Keys == {};
    }

    method Exec(op: Op<K1, K2, V>) returns (r: Reply<V>)
      requires Valid()
      modifies this
      ensures Valid()
      ensures (Contents(), r) == Step(old(Contents()), op)
    {
      match op
      case Insert(k1, k2, v) =>
        var ok := Insert(k1, k2, v);
        r := if ok then Inserted else Rejected;
      case Get1(k1) =>
        var v := Get1(k1);
        r := Found(v);
      case Get2(k2) =>
        var v := Get2(k2);
        r := Found(v);
      case Remove1(k1) =>
        var v := Remove1(k1);
        r := Found(v);
      case Remove2(k2) =>
        var v := Remove2(k2);
        r := Found(v);
    }
  }

  /** A map's whole life: the replies are those of the doubly keyed set, and each box is freed once by the end. */
  method Lifetime<K1(==, !new), K2(==, !new), V(!new)>(ops: seq<Op<K1, K2, V>>)
    returns (replies: seq<Reply<V>>, boxes: nat, ghost freed: seq<Ptr>)
    ensures replies == Replies({}, ops)
    ensures |freed| == boxes && Distinct(freed) && forall p: Ptr :: p in freed <==> p < boxes
  {
    var m := new MultiMap<K1, K2, V>();
    replies := [];
    for i := 0 to |ops|
      invariant fresh(m) && m.Valid()
      invariant replies + Replies(m.Contents(), ops[i..]) == Replies({}, ops)
    {
      assert ops[i..][1..] == ops[i + 1..];
      var r := m.Exec(ops[i]);
      replies := replies + [r];
    }
    m.Drop();
    boxes, freed := m.next, m.freed;
    DistinctBelow(freed, boxes);
  }

  ghost function Below(n: nat): (r: set<Ptr>)
    ensures |r| == n && forall p: Ptr :: p in r <==> p < n
  {
    if n == 0 then {} else Below(n - 1) + {n - 1}
  }

  lemma DistinctBelow(s: seq<Ptr>, n: nat)
    requires Distinct(s) && forall p: Ptr :: p in s <==> p < n
    ensures |s| == n
  {
    DistinctSize(s);
    assert Elements(s) == Below(n);
  }
}
