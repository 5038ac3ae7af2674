/** The entry point of the answer caches (internal/cache/coordinator.go): namespaces, lookup, store, and one
    undisturbed call of Do. `SingleFlight` interleaves many. */
module Coordinator {
  import opened Wrappers
  import opened Text
  import L = Lru
  import E = ExactCache
  import N = NegativeCache
  import S = SemanticCache

  datatype Key = Key(user: string, model: string)

  /** The namespace of a key; blank when the caller is not identified and nothing may be cached. */
  function Namespace(k: Key): string {
    var user := TrimSpace(k.user);
    if user == "" then "" else user + "|" + k.model
  }

  // ------------------------------------------------------------------ when namespaces keep users apart

  /** The comment in the source says that ("a", "b|c") and ("a|b", "c") do not meet. They do. */
  lemma NamespacesCanMeet()
    ensures Namespace(Key("a", "b|c")) == Namespace(Key("a|b", "c")) == "a|b|c"
  {
    TrimOf("a");
    TrimOf("a|b");
  }

  lemma TrimOf(s: string)
    requires s != "" && !IsSpace(s[0]) && !IsSpace(s[|s|-1])
    ensures TrimSpace(s) == s
  {
  }

  /** Two users can end up in one namespace, under some models, exactly when their names differ at most in surrounding
      blanks, or the name of one, followed by the separator, begins the name of the other. */
  lemma NamespacesMeetExactlyWhen(u: string, v: string)
    requires TrimSpace(u) != "" && TrimSpace(v) != ""
    ensures (exists m, n :: Namespace(Key(u, m)) == Namespace(Key(v, n)))
            <==> || TrimSpace(u) == TrimSpace(v)
                 || HasPrefix(TrimSpace(v), TrimSpace(u) + "|") || HasPrefix(TrimSpace(u), TrimSpace(v) + "|")
  {
    var a, b := TrimSpace(u), TrimSpace(v);
    if a == b {
      assert Namespace(Key(u, "")) == Namespace(Key(v, ""));
    } else if HasPrefix(b, a + "|") {
      var n := "";
      var m := b[|a|+1..] + "|" + n;
      Rejoin(b, a, n);
      assert Namespace(Key(u, m)) == Namespace(Key(v, n));
    } else if HasPrefix(a, b + "|") {
      var m := "";
      var n := a[|b|+1..] + "|" + m;
      Rejoin(a, b, m);
      assert Namespace(Key(u, m)) == Namespace(Key(v, n));
    }
    forall m, n | Namespace(Key(u, m)) == Namespace(Key(v, n))
      ensures a == b || HasPrefix(b, a + "|") || HasPrefix(a, b + "|")
    {
      if |a| <= |b| { Shorter(a, m, b, n); } else { Shorter(b, n, a, m); }
    }
  }

  lemma Rejoin(long: string, short: string, n: string)
    requires HasPrefix(long, short + "|")
    ensures short + "|" + (long[|short|+1..] + "|" + n) == long + "|" + n
  {
    assert long == long[..|short|+1] + long[|short|+1..];
  }

  /** If two names joined to models give the same string, the shorter name begins the longer one up to the separator. */
  lemma Shorter(a: string, m: string, b: string, n: string)
    requires a + "|" + m == b + "|" + n && |a| <= |b|
    ensures a == b || HasPrefix(b, a + "|")
  {
    var s := a + "|" + m;
    assert s[..|a|] == a && s[|a|] == '|';
    assert s[..|b|] == b;
    assert b[..|a|] == s[..|b|][..|a|] == s[..|a|];
    if |a| < |b| {
      assert b[|a|] == s[|a|];
      assert b[..|a|+1] == b[..|a|] + [b[|a|]];
    }
  }

  /** Names without the separator in them meet only when they are the same but for surrounding blanks:
      one namespace means one trimmed name and one model. */
  lemma SeparateWithoutBar(k: Key, k': Key)
    requires '|' !in TrimSpace(k.user) && '|' !in TrimSpace(k'.user)
    requires Namespace(k) == Namespace(k') && Namespace(k) != ""
    ensures TrimSpace(k.user) == TrimSpace(k'.user) && k.model == k'.model
  {
    var a, b := TrimSpace(k.user), TrimSpace(k'.user);
    PrefixHasBar(a, b);
    PrefixHasBar(b, a);
    if |a| <= |b| {
      Shorter(a, k.model, b, k'.model);
    } else {
      Shorter(b, k'.model, a, k.model);
    }
    assert k.model == Namespace(k)[|a|+1..];
  }

  lemma PrefixHasBar(a: string, b: string)
    ensures HasPrefix(b, a + "|") ==> '|' in b
  {
    if HasPrefix(b, a + "|") { assert b[..|a|+1][|a|] == b[|a|]; }
  }

  // ------------------------------------------------------------------ the coordinator

  datatype Level = Exact | Semantic | Negative | Miss
  datatype Hit = Hit(answer: string, level: Level, ok: bool, tokens: int, cost: int)
  datatype Source = Source(answer: string, tokens: int, cost: int)

  const MISSED := Hit("", Miss, false, 0, 0)

  function CacheKey(k: Key, question: string): L.Key {
    L.Key(Namespace(k), question)
  }

  /** Nobody shares a cache key who does not share the namespace and the question. */
  lemma CacheKeysMeetExactlyWhen(k: Key, question: string, k': Key, question': string)
    ensures CacheKey(k, question) == CacheKey(k', question') <==> Namespace(k) == Namespace(k') && question == question'
  {
  }

  /** The key under which the answer to this question is kept for this user and model. */
  predicate IsFor(key: L.Key, k: Key, question: string) {
    key.namespace == TrimSpace(k.user) + "|" + k.model && key.question == question
  }

  class Coordinator {
    const enabled: bool
    const exact: E.ExactCache
    const neg: N.NegativeCache
    const sem: S.SemanticCache

    ghost predicate Valid()
      reads this, exact, exact.ll, neg, sem
    {
      exact.Valid() && sem.Valid()
    }

    constructor (enabled: bool, maxEntries: int, config: S.Config)
      ensures Valid() && this.enabled == enabled && exact.entries == [] && neg.m == map[] && sem.Entries() == []
      ensures fresh(exact) && fresh(neg) && fresh(sem) && fresh(sem.buffer)
    {
      this.enabled := enabled;
      exact := new E.ExactCache(maxEntries);
      neg := new N.NegativeCache();
      sem := new S.SemanticCache(config);
    }

    predicate Cacheable(k: Key) {
      enabled && Namespace(k) != ""
    }

    /** What the semantic cache may answer. */
    ghost predicate SemanticAnswer(root: real -> real, vector: Option<S.Vector>, ns: string, now: int,
                                   hit: Option<S.Entry>)
      requires sem.Valid() && S.IsRoot(root)
      reads this, sem, sem.buffer
    {
      if sem.config.enabled && vector.Some?
      then S.IsAnswer(root, sem.Entries(), vector.value, ns, now, sem.config.Ttl(), sem.config.Threshold(), hit)
      else hit == None
    }

    ghost predicate IsSimilar(root: real -> real, ns: string, vector: Option<S.Vector>, now: int, hit: Hit)
      requires sem.Valid() && S.IsRoot(root)
      reads this, sem, sem.buffer
    {
      exists s :: SemanticAnswer(root, vector, ns, now, s) && hit == SemanticHit(s)
    }

    function SemanticHit(s: Option<S.Entry>): Hit {
      match s case Some(e) => Hit(e.answer, Semantic, true, e.tokens, e.cost) case None => MISSED
    }

    /** What Lookup returns, given what the two maps hold for the key. */
    ghost predicate IsLookup(entries: L.Entries, m: N.Table, root: real -> real, k: Key, question: string,
                             vector: Option<S.Vector>, now: int, hit: Hit)
      requires sem.Valid() && S.IsRoot(root)
      reads this, sem, sem.buffer
    {
      var key := CacheKey(k, question);
      match L.Get(entries, key, now).1
      case Some(e) => hit == Hit(e.answer, Exact, true, e.tokens, e.cost)
      case None =>
        match N.Lookup(m, key, now).1
        case Some(a) => hit == Hit(a, Negative, true, 0, 0)
        case None => IsSimilar(root, Namespace(k), vector, now, hit)
    }

    /** Whatever Lookup answers was stored under the namespace of the caller: exact answers and refusals under the very
        question, similar ones under some question of that namespace. */
    lemma AnswersStayInNamespace(entries: L.Entries, m: N.Table, root: real -> real, k: Key, question: string,
                                 vector: Option<S.Vector>, now: int, hit: Hit)
      requires sem.Valid() && S.IsRoot(root) && IsLookup(entries, m, root, k, question, vector, now, hit)
      ensures hit.ok <==> hit.level != Miss
      ensures hit.level == Exact ==> exists i :: 0 <= i < |entries| && entries[i].key == CacheKey(k, question)
                                                 && entries[i].answer == hit.answer && now <= entries[i].expires
      ensures hit.level == Negative ==> CacheKey(k, question) in m && m[CacheKey(k, question)].answer == hit.answer
      ensures hit.level == Semantic ==>
                exists j :: 0 <= j < |sem.Entries()| && sem.Entries()[j].model == Namespace(k)
                            && sem.Entries()[j].answer == hit.answer
    {
      if hit.level == Semantic {
        var s :| SemanticAnswer(root, vector, Namespace(k), now, s) && hit == SemanticHit(s);
      }
    }

    /** Exact first, then remembered refusals, then similar questions. */
    method Lookup(root: real -> real, k: Key, question: string, vector: Option<S.Vector>, now: int) returns (hit: Hit)
      requires Valid() && S.IsRoot(root)
      modifies exact, neg
      ensures Valid()
      ensures !Cacheable(k) ==> hit == MISSED && exact.entries == old(exact.entries) && neg.m == old(neg.m)
      ensures Cacheable(k) ==> IsLookup(old(exact.entries), old(neg.m), root, k, question, vector, now, hit)
      ensures !enabled || TrimSpace(k.user) == "" ==> hit.level == Miss && !hit.ok
      // an exact answer in time comes first, then a refusal in time
      ensures enabled && TrimSpace(k.user) != "" ==>
                forall i :: 0 <= i < |old(exact.entries)| && IsFor(old(exact.entries)[i].key, k, question) ==>
                  var e := old(exact.entries)[i];
                  if now <= e.expires then hit == Hit(e.answer, Exact, true, e.tokens, e.cost) else hit.level != Exact
      ensures hit.level != Exact && enabled && TrimSpace(k.user) != "" ==>
                forall key :: key in old(neg.m) && IsFor(key, k, question) && now <= old(neg.m)[key].expires ==>
                  hit == Hit(old(neg.m)[key].answer, Negative, true, 0, 0)
      ensures Cacheable(k) ==> exact.entries == L.Get(old(exact.entries), CacheKey(k, question), now).0
      ensures Cacheable(k) ==> neg.m == if hit.level == Exact then old(neg.m)
                                        else N.Lookup(old(neg.m), CacheKey(k, question), now).0
      ensures exact.Elements() <= old(exact.Elements())
    {
      var ns := Namespace(k);
      if ns == "" || !enabled {
        return MISSED;
      }
      forall i | 0 <= i < |exact.entries| && exact.entries[i].key == CacheKey(k, question)
        ensures L.Get(exact.entries, CacheKey(k, question), now).1
                == if now <= exact.entries[i].expires then Some(exact.entries[i]) else None
      {
        L.HeldMeansHit(exact.entries, i, now);
      }
      hit := AskInOrder(root, k, question, vector, now);
    }

    method AskInOrder(root: real -> real, k: Key, question: string, vector: Option<S.Vector>, now: int)
      returns (hit: Hit)
      requires Valid() && S.IsRoot(root)
      modifies exact, neg
      ensures Valid()
      ensures IsLookup(old(exact.entries), old(neg.m), root, k, question, vector, now, hit)
      ensures exact.entries == L.Get(old(exact.entries), CacheKey(k, question), now).0
      ensures neg.m == if hit.level == Exact then old(neg.m) else N.Lookup(old(neg.m), CacheKey(k, question), now).0
      ensures exact.Elements() <= old(exact.Elements())
    {
      var found := exact.Get(CacheKey(k, question), now);
      if found.Some? {
        return Hit(found.value.answer, Exact, true, found.value.tokens, found.value.cost);
      }
      hit := AskAfterExact(root, k, question, vector, now);
    }

    method AskAfterExact(root: real -> real, k: Key, question: string, vector: Option<S.Vector>, now: int)
      returns (hit: Hit)
      requires sem.Valid() && S.IsRoot(root)
      modifies neg
      ensures match N.Lookup(old(neg.m), CacheKey(k, question), now).1
              case Some(a) => hit == Hit(a, Negative, true, 0, 0)
              case None => IsSimilar(root, Namespace(k), vector, now, hit)
      ensures neg.m == N.Lookup(old(neg.m), CacheKey(k, question), now).0 && hit.level != Exact
    {
      var refusal := neg.Get(CacheKey(k, question), now);
      if refusal.Some? {
        return Hit(refusal.value, Negative, true, 0, 0);
      }
      hit := AskSimilar(root, Namespace(k), vector, now);
    }

    method AskSimilar(root: real -> real, ns: string, vector: Option<S.Vector>, now: int) returns (hit: Hit)
      requires sem.Valid() && S.IsRoot(root)
      ensures IsSimilar(root, ns, vector, now, hit) && hit.level != Exact && hit.level != Negative
    {
      var similar := sem.Lookup(root, vector, ns, now);
      assert SemanticAnswer(root, vector, ns, now, similar);
      if similar.Some? {
        return Hit(similar.value.answer, Semantic, true, similar.value.tokens, similar.value.cost);
      }
      return MISSED;
    }

    /** Refusals go to the short-lived map only; answers go to both answer caches and end the refusal.
        The expiries are computed by the caller from the configured lifetimes. */
    method Store(k: Key, question: string, src: Source, vector: Option<S.Vector>, now: int, expires: int,
                 negExpires: int)
      requires Valid()
      modifies exact, exact.Elements(), neg, sem, sem.buffer
      ensures Valid()
      ensures !Cacheable(k) || src.answer == "" ==>
                exact.entries == old(exact.entries) && neg.m == old(neg.m) && sem.Entries() == old(sem.Entries())
      ensures Cacheable(k) && src.answer != "" && N.IsRefusal(src.answer) ==>
                && exact.entries == old(exact.entries) && sem.Entries() == old(sem.Entries())
                && neg.m == N.Alive(old(neg.m), now)[CacheKey(k, question) := N.Refused(src.answer, negExpires)]
      ensures Cacheable(k) && src.answer != "" && !N.IsRefusal(src.answer) ==>
                && exact.entries == L.Set(old(exact.entries), ExactEntry(k, question, src, expires), exact.max)
                && sem.Entries() == AfterSemanticStore(old(sem.Entries()), k, question, src, vector, now)
                && neg.m == old(neg.m) - {CacheKey(k, question)}
      ensures fresh(exact.Elements() - old(exact.Elements()))
      ensures sem.buffer == old(sem.buffer) || fresh(sem.buffer)
    {
      var ns := Namespace(k);
      if ns == "" || !enabled || src.answer == "" {
        return;
      }
      var refuses := N.Refuses(src.answer);
      if refuses {
        neg.Store(CacheKey(k, question), N.Refused(src.answer, negExpires), now);
      } else {
        StoreAnswer(k, question, src, vector, now, expires);
      }
    }

    function ExactEntry(k: Key, question: string, src: Source, expires: int): L.Entry {
      L.Entry(CacheKey(k, question), src.answer, expires, src.tokens, src.cost)
    }

    function AfterSemanticStore(entries: seq<S.Entry>, k: Key, question: string, src: Source, vector: Option<S.Vector>,
                                now: int): seq<S.Entry> {
      if sem.config.enabled && vector.Some?
      then S.Stored(entries, S.Entry(question, src.answer, vector.value, Namespace(k), now, src.tokens, src.cost),
                    now, sem.config.Ttl(), sem.config.MaxEntries())
      else entries
    }

    /** The three writes for an answer that is not a refusal. */
    method StoreAnswer(k: Key, question: string, src: Source, vector: Option<S.Vector>, now: int, expires: int)
      requires Valid() && src.answer != ""
      modifies exact, exact.Elements(), neg, sem, sem.buffer
      ensures Valid()
      ensures exact.entries == L.Set(old(exact.entries), ExactEntry(k, question, src, expires), exact.max)
      ensures sem.Entries() == AfterSemanticStore(old(sem.Entries()), k, question, src, vector, now)
      ensures neg.m == old(neg.m) - {CacheKey(k, question)}
      ensures fresh(exact.Elements() - old(exact.Elements()))
      ensures sem.buffer == old(sem.buffer) || fresh(sem.buffer)
    {
      exact.Set(ExactEntry(k, question, src, expires));
      assert sem.Entries() == old(sem.Entries());
      StoreSimilar(k, question, src, vector, now);
      neg.Clear(CacheKey(k, question));
    }

    method StoreSimilar(k: Key, question: string, src: Source, vector: Option<S.Vector>, now: int)
      requires Valid() && src.answer != ""
      modifies sem, sem.buffer
      ensures Valid()
      ensures sem.Entries() == AfterSemanticStore(old(sem.Entries()), k, question, src, vector, now)
      ensures sem.buffer == old(sem.buffer) || fresh(sem.buffer)
    {
      sem.Store(vector, Namespace(k), question, src.answer, src.tokens, src.cost, now);
    }

    /** Invalidate: one question of one user and model is forgotten, as an answer and as a refusal. */
    method Invalidate(k: Key, question: string)
      requires Valid()
      modifies exact, neg
      ensures Valid()
      ensures Namespace(k) == "" ==> exact.entries == old(exact.entries) && neg.m == old(neg.m)
      ensures Namespace(k) != "" ==>
                && exact.entries == L.Delete(old(exact.entries), CacheKey(k, question))
                && neg.m == old(neg.m) - {CacheKey(k, question)}
    {
      if Namespace(k) == "" {
        return;
      }
      exact.Delete(CacheKey(k, question));
      neg.Clear(CacheKey(k, question));
    }

    /** InvalidateAll: no lookup finds anything that was stored before. What is being generated or about to be returned
        meanwhile is not reached; `SingleFlight.OldAnswerIsUsedExactlyWhen` says when a later call can still get it. */
    method InvalidateAll()
      requires Valid()
      modifies exact, neg, sem
      ensures Valid() && exact.entries == [] && neg.m == map[] && sem.Entries() == []
    {
      exact.Purge();
      neg.Purge();
      sem.Purge();
    }

    // ---------------------------------------------------------------- what callers can rely on

    /** An answer that was stored is found again in time, as it was, whatever the embedding. */
    method StoreThenAsk(root: real -> real, k: Key, question: string, src: Source, vector: Option<S.Vector>, now: int,
                        expires: int, negExpires: int, later: int, vector': Option<S.Vector>)
      returns (hit: Hit)
      requires Valid() && S.IsRoot(root) && enabled && TrimSpace(k.user) != ""
      requires src.answer != "" && !N.IsRefusal(src.answer) && later <= expires
      modifies exact, exact.Elements(), neg, sem, sem.buffer
      ensures Valid() && hit == Hit(src.answer, Exact, true, src.tokens, src.cost)
    {
      Store(k, question, src, vector, now, expires, negExpires);
      L.WriteThenHit(old(exact.entries), ExactEntry(k, question, src, expires), exact.max, later);
      hit := Lookup(root, k, question, vector', later);
    }

    /** A refusal that was stored is found again in time, if there is no exact answer. */
    method StoreThenAskRefused(root: real -> real, k: Key, question: string, src: Source, vector: Option<S.Vector>,
                               now: int, expires: int, negExpires: int, later: int, vector': Option<S.Vector>)
      returns (hit: Hit)
      requires Valid() && S.IsRoot(root) && enabled && TrimSpace(k.user) != ""
      requires src.answer != "" && N.IsRefusal(src.answer) && later <= negExpires
      requires forall i :: 0 <= i < |exact.entries| ==> !IsFor(exact.entries[i].key, k, question)
      modifies exact, exact.Elements(), neg, sem, sem.buffer
      ensures Valid() && hit == Hit(src.answer, Negative, true, 0, 0)
    {
      Store(k, question, src, vector, now, expires, negExpires);
      hit := Lookup(root, k, question, vector', later);
    }

    /** Storing for one question gives no exact answer to another: what is found there was there before. */
    method StoreThenAskElse(root: real -> real, k: Key, question: string, src: Source, vector: Option<S.Vector>,
                            now: int, expires: int, negExpires: int, k': Key, question': string, later: int,
                            vector': Option<S.Vector>)
      returns (hit: Hit)
      requires Valid() && S.IsRoot(root)
      requires Namespace(k) != Namespace(k') || question != question'
      modifies exact, exact.Elements(), neg, sem, sem.buffer
      ensures Valid()
      ensures hit.level == Exact ==>
                exists e :: e in old(exact.entries) && IsFor(e.key, k', question') && later <= e.expires
                            && hit == Hit(e.answer, Exact, true, e.tokens, e.cost)
    {
      Store(k, question, src, vector, now, expires, negExpires);
      ghost var entries := exact.entries;
      hit := Lookup(root, k', question', vector', later);
      if hit.level == Exact {
        OthersWereThere(old(exact.entries), ExactEntry(k, question, src, expires), exact.max,
                        entries, CacheKey(k', question'), later);
      }
    }

    /** What the exact cache answers to another question after a write, it held before. */
    lemma OthersWereThere(was: L.Entries, written: L.Entry, max: nat, entries: L.Entries, key: L.Key, later: int)
      requires max > 0 && L.Sound(was, max) && key != written.key
      requires entries == was || entries == L.Set(was, written, max)
      requires L.Get(entries, key, later).1.Some?
      ensures var e := L.Get(entries, key, later).1.value; e in was && e.key == key && later <= e.expires
    {
      L.WriteKeepsOthers(was, written, max, L.Get(entries, key, later).1.value);
    }

    /** An answer that was stored is found again, while it lives, under any question with the same embedding. */
    method StoreThenAskSimilar(root: real -> real, k: Key, question: string, src: Source, v: S.Vector, now: int,
                               expires: int, negExpires: int, question': string, later: int)
      returns (hit: Hit)
      requires Valid() && S.IsRoot(root) && enabled && TrimSpace(k.user) != "" && sem.config.enabled
      requires src.answer != "" && !N.IsRefusal(src.answer) && v != [] && S.Dot(v, v) != 0.0
      requires later - now <= sem.config.Ttl()
      modifies exact, exact.Elements(), neg, sem, sem.buffer
      ensures Valid() && hit.ok && hit.level != Miss
      ensures question' != question
              && (forall e :: e in old(exact.entries) ==> !IsFor(e.key, k, question'))
              && (forall key :: key in old(neg.m) ==> !IsFor(key, k, question'))
              ==> hit.level == Semantic
    {
      hide IsLookup, L.Get, L.Set, N.Lookup, S.Survivors;
      Store(k, question, src, Some(v), now, expires, negExpires);
      ghost var entries, m := exact.entries, neg.m;
      assert sem.Entries()[|sem.Entries()|-1].vector == v;
      hit := Lookup(root, k, question', Some(v), later);
      SimilarIsFound(root, entries, m, k, question', v, later, hit, |sem.Entries()| - 1);
      if hit.level == Exact && question' != question {
        OthersWereThere(old(exact.entries), ExactEntry(k, question, src, expires), exact.max,
                        entries, CacheKey(k, question'), later);
      }
    }

    lemma SimilarIsFound(root: real -> real, entries: L.Entries, m: N.Table, k: Key, question: string, v: S.Vector,
                         now: int, hit: Hit, j: nat)
      requires sem.Valid() && S.IsRoot(root) && IsLookup(entries, m, root, k, question, Some(v), now, hit)
      requires sem.config.enabled && v != [] && S.Dot(v, v) != 0.0
      requires j < |sem.Entries()| && sem.Entries()[j].vector == v
      requires S.Candidate(sem.Entries()[j], Namespace(k), now, sem.config.Ttl())
      ensures hit.ok && hit.level != Miss
      ensures hit.level == Exact ==> L.Get(entries, CacheKey(k, question), now).1.Some?
      ensures hit.level == Negative ==> CacheKey(k, question) in m
    {
      if L.Get(entries, CacheKey(k, question), now).1 == None && N.Lookup(m, CacheKey(k, question), now).1 == None {
        var s :| SemanticAnswer(root, Some(v), Namespace(k), now, s) && hit == SemanticHit(s);
        S.SameQuestionHits(root, sem.Entries(), v, Namespace(k), now, sem.config, s, j);
      }
    }

    /** What the exact cache and the refusals hold after a lookup that returned `hit`. */
    function EntriesAfter(entries: L.Entries, k: Key, question: string, now: int): L.Entries {
      L.Get(entries, CacheKey(k, question), now).0
    }

    function RefusalsAfter(m: N.Table, k: Key, question: string, now: int, hit: Hit): N.Table {
      if hit.level == Exact then m else N.Lookup(m, CacheKey(k, question), now).0
    }

    /** The look before the flight and the one inside it; without a namespace there is no flight. */
    method LookTwice(root: real -> real, k: Key, question: string, vector: Option<S.Vector>, now: int, again: int)
      returns (hit: Hit, ghost first: Hit)
      requires Valid() && S.IsRoot(root)
      modifies exact, neg
      ensures Valid()
      ensures !Cacheable(k) ==> hit == MISSED && exact.entries == old(exact.entries) && neg.m == old(neg.m)
      ensures Cacheable(k) ==> IsLookup(old(exact.entries), old(neg.m), root, k, question, vector, now, first)
      ensures Cacheable(k) ==>
                var entries, m := EntriesAfter(old(exact.entries), k, question, now),
                                  RefusalsAfter(old(neg.m), k, question, now, first);
                if first.ok then hit == first && exact.entries == entries && neg.m == m
                else && IsLookup(entries, m, root, k, question, vector, again, hit)
                     && exact.entries == EntriesAfter(entries, k, question, again)
                     && neg.m == RefusalsAfter(m, k, question, again, hit)
      ensures exact.Elements() <= old(exact.Elements())
    {
      hit := Lookup(root, k, question, vector, now);
      first := hit;
      if !hit.ok && Namespace(k) != "" {
        hit := Lookup(root, k, question, vector, again);
      }
    }

    /** One call of Do that no other call disturbs. What `gen` would produce is a parameter; `ran` says whether it
        was called. The second look happens at `again`, the writes at `done`; `first` and `second` are what the two
        looks found. */
    method Do(root: real -> real, k: Key, question: string, vector: Option<S.Vector>, gen: Result<Source, string>,
              now: int, again: int, done: int, expires: int, negExpires: int)
      returns (hit: Hit, failed: bool, ran: bool, ghost first: Hit, ghost second: Hit)
      requires Valid() && S.IsRoot(root)
      modifies exact, exact.Elements(), neg, sem, sem.buffer
      ensures Valid()
      // who answers: the first look, else the second, else gen
      ensures Cacheable(k) ==> old(IsLookup(exact.entries, neg.m, root, k, question, vector, now, first))
      ensures Cacheable(k) && !first.ok ==>
                old(IsLookup(EntriesAfter(exact.entries, k, question, now),
                             RefusalsAfter(neg.m, k, question, now, first),
                             root, k, question, vector, again, second))
      ensures ran <==> !Cacheable(k) || (!first.ok && !second.ok)
      ensures failed <==> ran && gen.Err?
      ensures hit == if !ran then (if first.ok then first else second)
                     else if gen.Ok? then Hit(gen.value.answer, Miss, true, 0, 0) else MISSED
      // what is stored
      ensures !Cacheable(k) ==>
                exact.entries == old(exact.entries) && neg.m == old(neg.m) && sem.Entries() == old(sem.Entries())
      ensures Cacheable(k) && ran ==>
                var entries := EntriesAfter(EntriesAfter(old(exact.entries), k, question, now), k, question, again);
                var m := RefusalsAfter(RefusalsAfter(old(neg.m), k, question, now, first), k, question, again, second);
                if gen.Err? || gen.value.answer == "" then
                  exact.entries == entries && neg.m == m && sem.Entries() == old(sem.Entries())
                else if N.IsRefusal(gen.value.answer) then
                  && exact.entries == entries && sem.Entries() == old(sem.Entries())
                  && neg.m == N.Alive(m, done)[CacheKey(k, question) := N.Refused(gen.value.answer, negExpires)]
                else
                  && exact.entries == L.Set(entries, ExactEntry(k, question, gen.value, expires), exact.max)
                  && neg.m == m - {CacheKey(k, question)}
                  && sem.Entries() == AfterSemanticStore(old(sem.Entries()), k, question, gen.value, vector, done)
      ensures fresh(exact.Elements() - old(exact.Elements()))
      ensures sem.buffer == old(sem.buffer) || fresh(sem.buffer)
    {
      hit, first := LookTwice(root, k, question, vector, now, again);
      second := hit;
      if hit.ok {
        return hit, false, false, first, second;
      }
      if gen.Err? {
        return MISSED, true, true, first, second;
      }
      Store(k, question, gen.value, vector, done, expires, negExpires);
      return Hit(gen.value.answer, Miss, true, 0, 0), false, true, first, second;
    }

    lemma HeldIsFound(entries: L.Entries, m: N.Table, root: real -> real, k: Key, question: string,
                      vector: Option<S.Vector>, now: int, hit: Hit, i: nat)
      requires sem.Valid() && S.IsRoot(root) && IsLookup(entries, m, root, k, question, vector, now, hit)
      requires L.Distinct(entries) && i < |entries| && entries[i].key == CacheKey(k, question)
      requires now <= entries[i].expires
      ensures hit == Hit(entries[i].answer, Exact, true, entries[i].tokens, entries[i].cost)
    {
      L.HeldMeansHit(entries, i, now);
    }

    /** What gen has made is not made again: the next call for the question, as long as the answer lives, is a hit. */
    method DoTwice(root: real -> real, k: Key, question: string, vector: Option<S.Vector>, src: Source,
                   gen': Result<Source, string>, now: int, again: int, done: int, expires: int, negExpires: int,
                   now': int, again': int, done': int, expires': int, negExpires': int)
      returns (ran: bool, hit': Hit, ran': bool)
      requires Valid() && S.IsRoot(root) && enabled && TrimSpace(k.user) != ""
      requires src.answer != "" && !N.IsRefusal(src.answer) && now' <= expires
      modifies exact, exact.Elements(), neg, sem, sem.buffer
      ensures Valid()
      ensures ran ==> !ran' && hit' == Hit(src.answer, Exact, true, src.tokens, src.cost)
    {
      hide IsLookup, L.Get, S.Stored, N.Alive, N.Lookup, AfterSemanticStore;
      var hit, failed, failed';
      ghost var first, second, first', second';
      hit, failed, ran, first, second :=
        Do(root, k, question, vector, Ok(src), now, again, done, expires, negExpires);
      if ran {
        assert exact.entries[0] == ExactEntry(k, question, src, expires);
        forall h: Hit | IsLookup(exact.entries, neg.m, root, k, question, vector, now', h)
          ensures h == Hit(src.answer, Exact, true, src.tokens, src.cost)
        {
          HeldIsFound(exact.entries, neg.m, root, k, question, vector, now', h, 0);
        }
      }
      hit', failed', ran', first', second' :=
        Do(root, k, question, vector, gen', now', again', done', expires', negExpires');
    }
  }
}
