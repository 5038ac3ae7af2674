/** Refusals remembered for a short time (internal/cache/penetration.go). */
module NegativeCache {
  import opened Wrappers
  import opened Text
  import L = Lru

  type Key = L.Key
  datatype Refused = Refused(answer: string, expires: int)

  /** The wordings by which a model says that it found nothing. */
  const MARKERS: seq<string> := [
    "\U{65E0}\U{6CD5}\U{627E}\U{5230}\U{76F8}\U{5173}\U{4FE1}\U{606F}",
    "\U{6CA1}\U{6709}\U{76F8}\U{5173}\U{4FE1}\U{606F}",
    "\U{672A}\U{627E}\U{5230}\U{76F8}\U{5173}\U{4FE1}\U{606F}",
    "\U{65E0}\U{6CD5}\U{56DE}\U{7B54}",
    "\U{65E0}\U{6CD5}\U{4ECE}\U{6587}\U{6863}",
    "\U{6587}\U{6863}\U{4E2D}\U{6CA1}\U{6709}",
    "\U{8D44}\U{6599}\U{4E2D}\U{6CA1}\U{6709}"]

  /** An answer is a refusal if it is blank, or short and somewhere contains one of the wordings. */
  ghost predicate IsRefusal(answer: string) {
    var a := TrimSpace(answer);
    a == "" || (|a| <= 120 && exists m, i :: 0 <= m < |MARKERS| && At(a, MARKERS[m], i))
  }

  method Refuses(answer: string) returns (r: bool)
    ensures r <==> IsRefusal(answer)
    ensures TrimSpace(answer) == "" ==> r
    ensures |TrimSpace(answer)| <= 120 ==>
      (exists m, i :: 0 <= m < |MARKERS| && At(TrimSpace(answer), MARKERS[m], i)) ==> r
    ensures r && TrimSpace(answer) != "" ==>
      |TrimSpace(answer)| <= 120 && exists m, i :: 0 <= m < |MARKERS| && At(TrimSpace(answer), MARKERS[m], i)
  {
    var a := TrimSpace(answer);
    if a == "" {
      return true;
    }
    if |a| > 120 {
      return false;
    }
    for m := 0 to |MARKERS|
      invariant forall k, i :: 0 <= k < m ==> !At(a, MARKERS[k], i)
    {
      var at := IndexOf(a, MARKERS[m]);
      if at != -1 {
        return true;
      }
      forall i ensures !At(a, MARKERS[m], i) {
        if At(a, MARKERS[m], i) { IndexOfIsFirst(a, MARKERS[m], i); }
      }
    }
    return false;
  }

  type Table = map<Key, Refused>

  /** Asking for a key: an expired entry is removed and is a miss. */
  function Lookup(m: Table, k: Key, now: int): (Table, Option<string>) {
    if k !in m then (m, None)
    else if now > m[k].expires then (m - {k}, None)
    else (m, Some(m[k].answer))
  }

  /** The refusals that have not expired. */
  function Alive(m: Table, now: int): Table {
    map k | k in m && now <= m[k].expires :: m[k]
  }

  class NegativeCache {
    var m: Table

    constructor ()
      ensures m == map[]
    {
      m := map[];
    }

    method Get(k: Key, now: int) returns (hit: Option<string>)
      modifies this
      ensures (m, hit) == Lookup(old(m), k, now)
      ensures hit.Some? <==> k in old(m) && now <= old(m)[k].expires
      ensures hit.Some? ==> hit.value == old(m)[k].answer && m == old(m)
      ensures hit == None ==> m == old(m) - {k}
    {
      if k !in m {
        return None;
      }
      var e := m[k];
      if now > e.expires {
        m := m - {k};
        return None;
      }
      return Some(e.answer);
    }

    /** Remembers a refusal, after dropping those that have expired. */
    method Store(k: Key, r: Refused, now: int)
      modifies this
      ensures m == Alive(old(m), now)[k := r]
      ensures k in m && m[k] == r
      ensures forall x :: x != k ==> (x in m <==> x in old(m) && now <= old(m)[x].expires)
      ensures forall x :: x != k && x in m ==> m[x] == old(m)[x]
    {
      var keys := m.Keys;
      while keys != {}
        invariant keys <= old(m).Keys
        invariant forall x :: x in m <==> x in old(m) && (x in keys || now <= old(m)[x].expires)
        invariant forall x :: x in m ==> m[x] == old(m)[x]
        decreases |keys|
      {
        var x :| x in keys;
        if now > m[x].expires {
          m := m - {x};
        }
        keys := keys - {x};
      }
      assert m == Alive(old(m), now);
      m := m[k := r];
    }

    method Clear(k: Key)
      modifies this
      ensures m == old(m) - {k}
    {
      m := m - {k};
    }

    method Purge()
      modifies this
      ensures m == map[]
    {
      m := map[];
    }
  }
}
