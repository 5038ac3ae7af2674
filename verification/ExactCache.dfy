/** The exact-match answer cache (internal/cache/exact.go): a list of elements, most recently used first,
    and an index from keys to those elements. What they hold together is a `Lru` sequence. */
module ExactCache {
  import opened Wrappers
  import L = Lru

  type Key = L.Key
  type Entry = L.Entry

  /** An element of the list: its value is replaced in place when its key is written again. */
  class Element {
    var value: Entry

    constructor (value: Entry)
      ensures this.value == value
    {
      this.value := value;
    }
  }

  class ExactCache {
    const max: nat
    var ll: seq<Element>           // front first
    var index: map<Key, Element>
    ghost var entries: L.Entries   // what ll and index represent

    /** List and index hold the same elements, each under its own key, once. */
    ghost predicate Linked()
      reads this, ll
    {
      && max > 0
      && L.Indexed(index, ll, entries)
      && (forall i :: 0 <= i < |ll| ==> ll[i].value == entries[i])
    }

    ghost function Elements(): set<object>
      reads this
    {
      set el | el in ll
    }

    ghost predicate Valid()
      reads this, ll
    {
      Linked() && |ll| <= max
    }

    constructor (max: int)
      ensures Valid() && entries == [] && ll == []
      ensures this.max == if max <= 0 then 10000 else max
    {
      this.max := if max <= 0 then 10000 else max;
      ll, index, entries := [], map[], [];
    }

    /** An element of the list is where its key is found. */
    lemma Placed(el: Element) returns (i: nat)
      requires Linked() && el in ll
      ensures i < |ll| && ll[i] == el && entries[i] == el.value && i == L.Find(entries, el.value.key)
    {
      i :| 0 <= i < |ll| && ll[i] == el;
      L.FindIs(entries, i);
    }

    lemma IndexFinds(k: Key)
      requires Linked()
      ensures k in index <==> L.Holds(entries, k)
      ensures k in index ==> index[k] in ll && index[k].value == entries[L.Find(entries, k)]
    {
    }

    /** container/list: where an element stands. */
    method Position(el: Element) returns (i: nat)
      requires Linked() && el in ll
      ensures i < |ll| && ll[i] == el && i == L.Find(entries, el.value.key)
    {
      ghost var at := Placed(el);
      i := 0;
      while ll[i] != el
        invariant i <= at
        decreases at - i
      {
        i := i + 1;
      }
      L.FindIs(entries, i);
    }

    /** removeElement: out of the list and out of the index. */
    method RemoveElement(el: Element)
      requires Linked() && el in ll
      modifies this
      ensures Linked() && |ll| == |old(ll)| - 1
      ensures L.Holds(old(entries), el.value.key)
      ensures entries == Without(old(entries), L.Find(old(entries), el.value.key))
      ensures Elements() <= old(Elements())
    {
      var i := Position(el);
      L.IndexedWithout(index, ll, entries, i);
      index := index - {el.value.key};
      entries := Without(entries, i);
      ll := ll[..i] + ll[i+1..];
    }

    method MoveToFront(el: Element)
      requires Linked() && el in ll
      modifies this`ll, this`entries
      ensures Linked() && |ll| == |old(ll)|
      ensures var i := L.Find(old(entries), el.value.key);
              i < |old(entries)| && entries == [old(entries)[i]] + Without(old(entries), i)
      ensures Elements() <= old(Elements())
    {
      var i := Position(el);
      L.IndexedToFront(index, ll, entries, i);
      ll := [el] + (ll[..i] + ll[i+1..]);
      entries := [entries[i]] + Without(entries, i);
    }

    /** A hit refreshes the entry; an expired entry is deleted on the way. */
    method Get(k: Key, now: int) returns (hit: Option<Entry>)
      requires Valid()
      modifies this
      ensures Valid()
      ensures (entries, hit) == L.Get(old(entries), k, now)
      ensures Elements() <= old(Elements())
    {
      IndexFinds(k);
      if k !in index {
        return None;
      }
      var el := index[k];
      var e := el.value;
      if now > e.expires {
        RemoveElement(el);
        return None;
      }
      MoveToFront(el);
      return Some(e);
    }

    /** Writes an entry whose expiry has been computed from its time to live; empty answers are not stored. */
    method Set(e: Entry)
      requires Valid()
      modifies this, Elements()
      ensures Valid()
      ensures entries == L.Set(old(entries), e, max)
      ensures fresh(Elements() - old(Elements()))
    {
      if e.answer == "" {
        return;
      }
      IndexFinds(e.key);
      if e.key in index {
        Replace(index[e.key], e);
        return;
      }
      Insert(e);
    }

    /** The branch of Set for a key that is absent: a new element in front, and the last one goes if there is one too
        many. */
    method Insert(e: Entry)
      requires Valid() && !L.Holds(entries, e.key)
      modifies this
      ensures Valid()
      ensures entries == if |old(entries)| < max then [e] + old(entries) else [e] + old(entries)[..max-1]
      ensures fresh(Elements() - old(Elements()))
    {
      var el := new Element(e);
      PushFront(el);
      ghost var pushed := entries;
      while |ll| > max
        invariant Linked() && |ll| <= |pushed| && (|ll| < |pushed| ==> |ll| >= max)
        invariant entries == pushed[..|ll|]
        invariant Elements() <= old(Elements()) + {el}
        decreases |ll|
      {
        RemoveOldest();
      }
      assert |pushed| > max ==> pushed[..max] == [e] + old(entries)[..max-1];
    }

    /** The last element goes. */
    method RemoveOldest()
      requires Linked() && ll != []
      modifies this
      ensures Linked() && |ll| == |old(ll)| - 1
      ensures entries == old(entries)[..|old(entries)|-1]
      ensures Elements() <= old(Elements())
    {
      L.FindIs(entries, |ll| - 1);
      RemoveElement(ll[|ll|-1]);
    }

    /** The branch for a key that is present: the element stays, its value is replaced. */
    method Replace(el: Element, e: Entry)
      requires Linked() && el in ll && el.value.key == e.key
      modifies this`ll, this`entries, el
      ensures Linked() && |ll| == |old(ll)|
      ensures var i := L.Find(old(entries), e.key);
              i < |old(entries)| && entries == [e] + Without(old(entries), i)
      ensures Elements() <= old(Elements())
    {
      ghost var i := Placed(el);
      L.IndexedReplace(index, ll, entries, i, e);
      el.value := e;
      entries := entries[i := e];
      L.FindIs(entries, i);
      assert Without(entries, i) == Without(old(entries), i);
      MoveToFront(el);
    }

    method PushFront(el: Element)
      requires Linked() && !L.Holds(entries, el.value.key)
      modifies this
      ensures Linked() && entries == [el.value] + old(entries) && ll == [el] + old(ll)
    {
      L.IndexedWith(index, ll, entries, el, el.value);
      index := index[el.value.key := el];
      entries := [el.value] + entries;
      ll := [el] + ll;
      forall i | 0 <= i < |ll| ensures ll[i].value == entries[i] {
        if i > 0 { assert ll[i] == old(ll)[i-1]; }
      }
    }

    method Delete(k: Key)
      requires Valid()
      modifies this
      ensures Valid()
      ensures entries == L.Delete(old(entries), k)
      ensures Elements() <= old(Elements())
    {
      IndexFinds(k);
      if k in index {
        RemoveElement(index[k]);
      }
    }

    method Purge()
      requires Valid()
      modifies this
      ensures Valid() && entries == [] && ll == []
    {
      ll, index, entries := [], map[], [];
    }

    method Len() returns (n: nat)
      requires Valid()
      ensures n == |entries| <= max
    {
      n := |ll|;
    }
  }
}
