// The answer cache: least-recently-used eviction plus expiry on a monotonic clock.
module TtlCache {
  import opened Options
  import opened OrderedDict
  import opened Sequences

  datatype Entry<+T> = Entry(value: T, insertedAt: real, expiresAt: real, ttl: int)

  // ----- What each operation does to the stored items -----

  function NewEntry<T>(value: T, ttl: int, now: real): Entry<T> {
    Entry(value, now, now + ttl as real, ttl)
  }

  function Lookup<T>(d: Dict<Entry<T>>, key: string, now: real): Option<Entry<T>> {
    match Find(d, key)
    case Some(e) => if e.expiresAt <= now then None else Some(e)
    case None => None
  }

  // A hit becomes the newest item, an expired item goes, a miss changes nothing.
  function AfterGet<T>(d: Dict<Entry<T>>, key: string, now: real): Dict<Entry<T>> {
    match Lookup(d, key, now)
    case Some(e) => Delete(d, key) + [Item(key, e)]
    case None => if Find(d, key).Some? then Delete(d, key) else d
  }

  function Evict<T>(d: Dict<Entry<T>>, capacity: nat): Dict<Entry<T>> {
    if |d| > capacity then d[|d| - capacity..] else d
  }

  function AfterSet<T>(d: Dict<Entry<T>>, capacity: nat, key: string, e: Entry<T>): Dict<Entry<T>> {
    Evict(Delete(d, key) + [Item(key, e)], capacity)
  }

  class TTLCache<T(0)> {
    const maxEntries: nat
    var data: Dict<Entry<T>>

    ghost predicate Valid()
      reads this
    {
      Unique(data) && 1 <= maxEntries && |data| <= maxEntries
    }

    constructor (limit: int)
      ensures Valid()
      ensures data == [] && maxEntries == if limit < 1 then 1 else limit
    {
      maxEntries := if limit < 1 then 1 else limit;
      data := [];
    }

    method Get(key: string, now: real) returns (r: Option<Entry<T>>)
      requires Valid()
      modifies this
      ensures Valid()
      ensures r == Lookup(old(data), key, now)
      ensures data == AfterGet(old(data), key, now)
    {
      AfterGetUnique(data, key, now);
      var entry := Find(data, key);
      if entry.None? {
        return None;
      }
      if entry.value.expiresAt <= now {
        data := Delete(data, key);
        return None;
      }
      data := MoveToEnd(data, key);
      return entry;
    }

    method Set(key: string, value: T, ttl: int, now: real)
      requires Valid()
      modifies this
      ensures Valid()
      ensures data == AfterSet(old(data), maxEntries, key, NewEntry(value, ttl, now))
    {
      var entry := NewEntry(value, ttl, now);
      AssignThenMove(data, key, entry);
      AfterSetUnique(data, maxEntries, key, entry);
      data := Assign(data, key, entry);
      data := MoveToEnd(data, key);
      ghost var full := Delete(old(data), key) + [Item(key, entry)];
      ghost var dropped := 0;
      while |data| > maxEntries
        invariant 0 <= dropped <= |full| && data == full[dropped..]
        invariant dropped == 0 || |data| >= maxEntries
      {
        data := data[1..];
        dropped := dropped + 1;
      }
      assert dropped == if |full| > maxEntries then |full| - maxEntries else 0;
    }

    method Clear()
      modifies this
      ensures data == []
    {
      data := [];
    }

    // The live items in order, each with its whole seconds left.
    method Snapshot(now: real) returns (rows: seq<(string, T, int, int)>)
      ensures rows == LiveRows(data, now)
    {
      rows := [];
      for i := 0 to |data|
        invariant rows == LiveRows(data[..i], now)
      {
        assert data[..i + 1][..i] == data[..i];
        var remaining := data[i].value.expiresAt - now;
        if remaining <= 0.0 {
          continue;
        }
        rows := rows + [(data[i].key, data[i].value.value, remaining.Floor, data[i].value.ttl)];
      }
      assert data[..|data|] == data;
    }
  }

  function LiveRows<T>(d: Dict<Entry<T>>, now: real): seq<(string, T, int, int)> {
    if d == [] then [] else
      var x := d[|d| - 1];
      var left := x.value.expiresAt - now;
      LiveRows(d[..|d| - 1], now)
      + if left <= 0.0 then [] else [(x.key, x.value.value, left.Floor, x.value.ttl)]
  }

  // The snapshot lists a key exactly when a lookup at that moment would hit it, with
  // the entry's value and between 0 and its whole remaining seconds.
  lemma {:induction false} SnapshotMatchesLookup<T>(d: Dict<Entry<T>>, now: real, key: string, value: T, left: int,
                                                    ttl: int)
    requires Unique(d)
    ensures (key, value, left, ttl) in LiveRows(d, now)
       <==> exists e :: Lookup(d, key, now) == Some(e) && e.value == value && e.ttl == ttl
                        && left == (e.expiresAt - now).Floor
  {
    if d == [] {
    } else {
      var init, x := d[..|d| - 1], d[|d| - 1];
      SnapshotMatchesLookup(init, now, key, value, left, ttl);
      var row := (key, value, left, ttl);
      if key == x.key {
        assert key !in Keys(init);
        assert row !in LiveRows(init, now);
        assert Lookup(d, key, now) == if x.value.expiresAt <= now then None else Some(x.value);
      } else {
        assert Lookup(d, key, now) == Lookup(init, key, now);
      }
    }
  }

  lemma AfterGetUnique<T>(d: Dict<Entry<T>>, key: string, now: real)
    requires Unique(d)
    ensures Unique(AfterGet(d, key, now)) && |AfterGet(d, key, now)| <= |d|
    ensures Keys(AfterGet(d, key, now)) <= Keys(d)
  {
    DeleteUnique(d, key);
    if Lookup(d, key, now).Some? {
      AppendUnique(Delete(d, key), Item(key, Lookup(d, key, now).value));
    }
  }

  lemma AfterSetUnique<T>(d: Dict<Entry<T>>, capacity: nat, key: string, e: Entry<T>)
    requires Unique(d) && 1 <= capacity
    ensures Unique(AfterSet(d, capacity, key, e))
    ensures |AfterSet(d, capacity, key, e)| <= capacity
  {
    DeleteUnique(d, key);
    var full := Delete(d, key) + [Item(key, e)];
    AppendUnique(Delete(d, key), Item(key, e));
    SuffixUnique(full, if |full| > capacity then |full| - capacity else 0);
  }

  // Looking up never adds or alters an item.
  lemma AfterGetMembers<T>(d: Dict<Entry<T>>, key: string, now: real, x: Item<Entry<T>>)
    requires x in AfterGet(d, key, now)
    ensures x in d
  {
    DeleteMembers(d, key, x);
    if Lookup(d, key, now).Some? {
      FindMember(d, key);
    }
  }

  lemma AfterSetMembers<T>(d: Dict<Entry<T>>, capacity: nat, key: string, e: Entry<T>, x: Item<Entry<T>>)
    requires x in AfterSet(d, capacity, key, e)
    ensures x == Item(key, e) || (x in d && x.key != key)
  {
    DeleteMembers(d, key, x);
    assert x in Delete(d, key) + [Item(key, e)];
  }

  // What a lookup leaves: the key's item if it is live, nothing of it if it has expired, and
  // every other item.
  lemma AfterGetFind<T>(d: Dict<Entry<T>>, key: string, now: real, other: string)
    requires Unique(d)
    ensures Find(AfterGet(d, key, now), key) == match Find(d, key)
                                                case Some(e) => if now < e.expiresAt then Some(e) else None
                                                case None => None
    ensures other != key ==> Find(AfterGet(d, key, now), other) == Find(d, other)
  {
    FindAfterDelete(d, key, key);
    FindAfterDelete(d, key, other);
    if Lookup(d, key, now).Some? {
      var x := Item(key, Lookup(d, key, now).value);
      FindAfterAppend(Delete(d, key), x, key);
      FindAfterAppend(Delete(d, key), x, other);
    }
  }

  // What a store leaves: the new entry, and every other item unless it was evicted, which
  // none is while there is room.
  lemma AfterSetFind<T>(d: Dict<Entry<T>>, capacity: nat, key: string, value: T, ttl: int, now: real, other: string)
    requires Unique(d) && 1 <= capacity
    ensures var after := AfterSet(d, capacity, key, NewEntry(value, ttl, now));
            && Find(after, key) == Some(Entry(value, now, now + ttl as real, ttl))
            && (other != key && Find(after, other).Some? ==> Find(after, other) == Find(d, other))
            && (other != key && |Keys(d) + {key}| <= capacity ==> Find(after, other) == Find(d, other))
  {
    var e := NewEntry(value, ttl, now);
    var rest, x := Delete(d, key), Item(key, e);
    var full := rest + [x];
    DeleteUnique(d, key);
    AppendUnique(rest, x);
    FindAfterAppend(rest, x, key);
    FindAfterAppend(rest, x, other);
    FindAfterDelete(d, key, other);
    UniqueSize(full);
    assert Keys(full) == Keys(d) + {key};
    EvictFind(full, capacity, key);
    EvictFind(full, capacity, other);
  }

  // Evicting finds nothing new, and the newest item stays.
  lemma EvictFind<T>(d: Dict<Entry<T>>, capacity: nat, key: string)
    requires Unique(d) && 1 <= capacity
    ensures Find(Evict(d, capacity), key).Some? ==> Find(Evict(d, capacity), key) == Find(d, key)
    ensures d != [] && d[|d| - 1].key == key ==> Find(Evict(d, capacity), key) == Some(d[|d| - 1].value)
  {
    var kept := Evict(d, capacity);
    if Find(kept, key).Some? {
      FindMember(kept, key);
      FindUnique(d, Item(key, Find(kept, key).value));
    }
  }

  // ----- Runs -----

  datatype Op<+T> =
    | Get(key: string, now: real)
    | Set(key: string, value: T, ttl: int, now: real)
    | Clear

  function Apply<T>(d: Dict<Entry<T>>, capacity: nat, op: Op<T>): Dict<Entry<T>> {
    match op
    case Get(key, now) => AfterGet(d, key, now)
    case Set(key, value, ttl, now) => AfterSet(d, capacity, key, NewEntry(value, ttl, now))
    case Clear => []
  }

  function Run<T>(d: Dict<Entry<T>>, capacity: nat, ops: seq<Op<T>>): Dict<Entry<T>> {
    if ops == [] then d
    else Apply(Run(d, capacity, ops[..|ops| - 1]), capacity, ops[|ops| - 1])
  }

  lemma RunOne<T>(d: Dict<Entry<T>>, capacity: nat, ops: seq<Op<T>>, op: Op<T>)
    ensures Run(d, capacity, ops + [op]) == Apply(Run(d, capacity, ops), capacity, op)
  {
    assert (ops + [op])[..|ops|] == ops;
  }

  lemma {:induction false} RunAppend<T>(d: Dict<Entry<T>>, capacity: nat, ops: seq<Op<T>>, more: seq<Op<T>>)
    ensures Run(d, capacity, ops + more) == Run(Run(d, capacity, ops), capacity, more)
  {
    if more == [] {
      assert ops + more == ops;
    } else {
      var init, op := more[..|more| - 1], more[|more| - 1];
      LastApart(ops, more);
      RunAppend(d, capacity, ops, init);
      RunOne(d, capacity, ops + init, op);
      RunOne(Run(d, capacity, ops), capacity, init, op);
    }
  }

  // No reachable cache outgrows its capacity or repeats a key.
  lemma {:induction false} RunBounded<T>(d: Dict<Entry<T>>, capacity: nat, ops: seq<Op<T>>)
    requires Unique(d) && |d| <= capacity && 1 <= capacity
    ensures Unique(Run(d, capacity, ops)) && |Run(d, capacity, ops)| <= capacity
  {
    if ops == [] {
    } else {
      var init := Run(d, capacity, ops[..|ops| - 1]);
      RunBounded(d, capacity, ops[..|ops| - 1]);
      match ops[|ops| - 1]
      case Get(key, now) => AfterGetUnique(init, key, now);
      case Set(key, value, ttl, now) => AfterSetUnique(init, capacity, key, NewEntry(value, ttl, now));
      case Clear =>
    }
  }

  // ----- LRU inclusion -----

  ghost predicate Included<T>(small: Dict<Entry<T>>, c1: nat, large: Dict<Entry<T>>, c2: nat) {
    && Unique(small) && |small| <= c1
    && Unique(large) && |large| <= c2
    && Subsequence(small, large)
    && |large| - |small| <= c2 - c1
  }

  lemma IncludedLookup<T>(small: Dict<Entry<T>>, large: Dict<Entry<T>>, key: string, now: real)
    requires Unique(small) && Unique(large) && Subsequence(small, large)
    ensures Find(small, key).Some? ==> Find(large, key) == Find(small, key)
    ensures Lookup(small, key, now).Some? ==> Lookup(large, key, now) == Lookup(small, key, now)
  {
    if Find(small, key).Some? {
      FindMember(small, key);
      SubsequenceMember(small, large, Item(key, Find(small, key).value));
      FindUnique(large, Item(key, Find(small, key).value));
    }
  }

  lemma IncludedGet<T>(small: Dict<Entry<T>>, c1: nat, large: Dict<Entry<T>>, c2: nat, key: string, now: real)
    requires Included(small, c1, large, c2)
    ensures Included(AfterGet(small, key, now), c1, AfterGet(large, key, now), c2)
  {
    AfterGetUnique(small, key, now);
    AfterGetUnique(large, key, now);
    IncludedLookup(small, large, key, now);
    DeleteUnique(small, key);
    DeleteUnique(large, key);
    SubsequenceDelete(small, large, key);
    SubsequenceKeys(small, large);
    var s, l := Delete(small, key), Delete(large, key);
    if Find(small, key).None? {
      DeleteAbsent(small, key);
      assert AfterGet(small, key, now) == s;
    }
    if Lookup(large, key, now).Some? {
      SubsequenceAppend(s, l, Item(key, Lookup(large, key, now).value));
      assert AfterGet(large, key, now) == l + [Item(key, Lookup(large, key, now).value)];
    } else if Find(large, key).Some? {
      assert AfterGet(large, key, now) == l;
    }
  }

  lemma IncludedEvict<T>(small: Dict<Entry<T>>, c1: nat, large: Dict<Entry<T>>, c2: nat)
    requires Unique(small) && Unique(large) && Subsequence(small, large)
    requires 1 <= c1 <= c2 && |small| <= c1 + 1 && |large| <= c2 + 1
    requires |large| - |small| <= c2 - c1
    ensures Subsequence(Evict(small, c1), Evict(large, c2))
  {
    if |small| > c1 {
      SubsequenceDropBoth(small, large);
      if |large| <= c2 {
        SubsequenceDropLeft(small, large);
      }
    }
  }

  lemma IncludedSet<T>(small: Dict<Entry<T>>, c1: nat, large: Dict<Entry<T>>, c2: nat, key: string, e: Entry<T>)
    requires Included(small, c1, large, c2) && 1 <= c1 <= c2
    ensures Included(AfterSet(small, c1, key, e), c1, AfterSet(large, c2, key, e), c2)
  {
    AfterSetUnique(small, c1, key, e);
    AfterSetUnique(large, c2, key, e);
    DeleteUnique(small, key);
    DeleteUnique(large, key);
    SubsequenceKeys(small, large);
    SubsequenceDelete(small, large, key);
    var s, l := Delete(small, key) + [Item(key, e)], Delete(large, key) + [Item(key, e)];
    AppendUnique(Delete(small, key), Item(key, e));
    AppendUnique(Delete(large, key), Item(key, e));
    SubsequenceAppend(Delete(small, key), Delete(large, key), Item(key, e));
    IncludedEvict(s, c1, l, c2);
  }

  // The same operations on a smaller and a larger cache: whatever expired, and whatever
  // only the larger one hit, the smaller one always holds an ordered part of the
  // larger one's items, the difference in size never exceeds the difference in
  // capacity, and every hit in the smaller is the same hit in the larger.
  lemma {:induction false} LruInclusion<T>(ops: seq<Op<T>>, c1: nat, c2: nat)
    requires 1 <= c1 <= c2
    ensures Included(Run([], c1, ops), c1, Run([], c2, ops), c2)
    ensures forall key, now | Lookup(Run([], c1, ops), key, now).Some? ::
              Lookup(Run([], c2, ops), key, now) == Lookup(Run([], c1, ops), key, now)
  {
    if ops != [] {
      var init := ops[..|ops| - 1];
      LruInclusion(init, c1, c2);
      var s, l := Run([], c1, init), Run([], c2, init);
      match ops[|ops| - 1]
      case Get(key, now) => IncludedGet(s, c1, l, c2, key, now);
      case Set(key, value, ttl, now) => IncludedSet(s, c1, l, c2, key, NewEntry(value, ttl, now));
      case Clear =>
    }
    forall key, now | Lookup(Run([], c1, ops), key, now).Some?
      ensures Lookup(Run([], c2, ops), key, now) == Lookup(Run([], c1, ops), key, now)
    {
      IncludedLookup(Run([], c1, ops), Run([], c2, ops), key, now);
    }
  }

  // ----- Retention -----

  // The keys an operation sequence sets or hits.
  ghost function Touched<T>(d: Dict<Entry<T>>, capacity: nat, ops: seq<Op<T>>): set<string> {
    if ops == [] then {} else
      var init, op := ops[..|ops| - 1], ops[|ops| - 1];
      Touched(d, capacity, init) + TouchedBy(Run(d, capacity, init), op)
  }

  ghost function TouchedBy<T>(d: Dict<Entry<T>>, op: Op<T>): set<string> {
    match op
    case Get(key, now) => if Lookup(d, key, now).Some? then {key} else {}
    case Set(key, _, _, _) => {key}
    case Clear => {}
  }

  // No clear, no new value for `key`, and every lookup of it no later than `now`.
  ghost predicate Undisturbed<T>(ops: seq<Op<T>>, key: string, now: real) {
    forall op | op in ops :: Harmless(op, key, now)
  }

  predicate Harmless<T>(op: Op<T>, key: string, now: real) {
    && !op.Clear?
    && (op.Set? ==> op.key != key)
    && (op.Get? && op.key == key ==> op.now <= now)
  }

  // The items more recently used than `key`.
  ghost function Newer<T>(d: Dict<Entry<T>>, key: string): Dict<Entry<T>> {
    if d == [] || d[|d| - 1].key == key then []
    else Newer(d[..|d| - 1], key) + [d[|d| - 1]]
  }

  ghost predicate Kept<T>(d: Dict<Entry<T>>, capacity: nat, key: string, e: Entry<T>, touched: set<string>) {
    && Unique(d) && |d| <= capacity
    && Find(d, key) == Some(e)
    && Keys(Newer(d, key)) <= touched - {key}
  }

  lemma NewerAppend<T>(d: Dict<Entry<T>>, key: string, x: Item<Entry<T>>)
    ensures Newer(d + [x], key) == if x.key == key then [] else Newer(d, key) + [x]
  {
    assert (d + [x])[..|d|] == d;
  }

  lemma {:induction false} NewerDelete<T>(d: Dict<Entry<T>>, key: string, other: string)
    requires Unique(d) && other != key
    ensures Newer(Delete(d, other), key) == Delete(Newer(d, key), other)
  {
    if d == [] {
    } else {
      var init, last := d[..|d| - 1], d[|d| - 1];
      NewerDelete(init, key, other);
      if last.key == other {
        DeleteUnique(init, other);
        DeleteAppend(Newer(init, key), last, other);
      } else {
        NewerAppend(Delete(init, other), key, last);
        if last.key != key {
          DeleteAppend(Newer(init, key), last, other);
        }
      }
    }
  }

  // The newer items are the suffix of the order that follows `key`.
  lemma {:induction false} NewerSuffix<T>(d: Dict<Entry<T>>, key: string)
    ensures |Newer(d, key)| <= |d| && Newer(d, key) == d[|d| - |Newer(d, key)|..]
    ensures Find(d, key).Some? ==>
              |Newer(d, key)| < |d| && d[|d| - |Newer(d, key)| - 1].key == key
    ensures forall x | x in Newer(d, key) :: x.key != key
  {
    if d != [] && d[|d| - 1].key != key {
      NewerSuffix(d[..|d| - 1], key);
    }
  }

  lemma {:induction false} NewerKeys<T>(d: Dict<Entry<T>>, key: string)
    requires Unique(d)
    ensures Unique(Newer(d, key))
    ensures Keys(Newer(d, key)) <= Keys(d) - {key}
  {
    if d != [] && d[|d| - 1].key != key {
      NewerKeys(d[..|d| - 1], key);
      AppendUnique(Newer(d[..|d| - 1], key), d[|d| - 1]);
    }
  }

  lemma {:induction false} NewerDropFirst<T>(d: Dict<Entry<T>>, key: string)
    requires Find(d, key).Some? && d[0].key != key
    ensures Newer(d[1..], key) == Newer(d, key)
    ensures Find(d[1..], key) == Find(d, key)
  {
    var init, last := d[..|d| - 1], d[|d| - 1];
    assert |d| > 1;
    assert d[1..] == init[1..] + [last];
    NewerAppend(init[1..], key, last);
    FindAfterAppend(init[1..], last, key);
    if last.key != key {
      NewerDropFirst(init, key);
    }
  }

  // Everything is newer than the oldest item.
  lemma {:induction false} FirstIsOldest<T>(d: Dict<Entry<T>>, key: string)
    requires Unique(d) && d != [] && d[0].key == key
    ensures |Newer(d, key)| == |d| - 1
  {
    if |d| > 1 {
      FirstIsOldest(d[..|d| - 1], key);
      KeyOfMember(d[..|d| - 1], d[0]);
    }
  }

  lemma KeptTouch<T>(d: Dict<Entry<T>>, capacity: nat, key: string, e: Entry<T>, touched: set<string>,
                     x: Item<Entry<T>>)
    requires Kept(d, capacity, key, e, touched)
    requires x.key != key && |touched + {x.key} - {key}| < capacity
    ensures Kept(Evict(Delete(d, x.key) + [x], capacity), capacity, key, e, touched + {x.key})
  {
    var rest := Delete(d, x.key);
    DeleteUnique(d, x.key);
    AppendUnique(rest, x);
    FindAfterDelete(d, x.key, key);
    FindAfterAppend(rest, x, key);
    NewerAfterTouch(d, key, touched, x);
    KeptEvict(rest + [x], capacity, key, e, touched + {x.key});
  }

  lemma KeptEvict<T>(d: Dict<Entry<T>>, capacity: nat, key: string, e: Entry<T>, touched: set<string>)
    requires Kept(d, capacity + 1, key, e, touched) && |touched - {key}| < capacity
    ensures Kept(Evict(d, capacity), capacity, key, e, touched)
  {
    if |d| > capacity {
      SuffixUnique(d, 1);
      NewerSuffix(d, key);
      NewerKeys(d, key);
      UniqueSize(Newer(d, key));
      SubsetSize(Keys(Newer(d, key)), touched - {key});
      assert d[0] in d;
      if d[0].key == key {
        FirstIsOldest(d, key);
      }
      NewerDropFirst(d, key);
    }
  }

  lemma NewerAfterTouch<T>(d: Dict<Entry<T>>, key: string, touched: set<string>, x: Item<Entry<T>>)
    requires Unique(d) && Keys(Newer(d, key)) <= touched - {key} && x.key != key
    ensures Keys(Newer(Delete(d, x.key) + [x], key)) <= touched + {x.key} - {key}
  {
    NewerAppend(Delete(d, x.key), key, x);
    NewerDelete(d, key, x.key);
    NewerKeys(d, key);
    DeleteUnique(Newer(d, key), x.key);
    AppendUnique(Delete(Newer(d, key), x.key), x);
  }

  lemma SubsetSize<A>(a: set<A>, b: set<A>)
    requires a <= b
    ensures |a| <= |b|
  {
    assert b == a + (b - a);
  }

  lemma KeptHit<T>(d: Dict<Entry<T>>, capacity: nat, key: string, e: Entry<T>, touched: set<string>)
    requires Kept(d, capacity, key, e, touched)
    ensures Kept(Delete(d, key) + [Item(key, e)], capacity, key, e, touched + {key})
  {
    DeleteUnique(d, key);
    AppendUnique(Delete(d, key), Item(key, e));
    FindAfterAppend(Delete(d, key), Item(key, e), key);
    NewerAppend(Delete(d, key), key, Item(key, e));
  }

  lemma KeptDelete<T>(d: Dict<Entry<T>>, capacity: nat, key: string, e: Entry<T>, touched: set<string>, other: string)
    requires Kept(d, capacity, key, e, touched) && other != key
    ensures Kept(Delete(d, other), capacity, key, e, touched)
  {
    DeleteUnique(d, other);
    FindAfterDelete(d, other, key);
    NewerDelete(d, key, other);
    NewerKeys(d, key);
    DeleteUnique(Newer(d, key), other);
  }

  lemma KeptStep<T>(d: Dict<Entry<T>>, capacity: nat, key: string, e: Entry<T>, touched: set<string>, op: Op<T>,
                    now: real)
    requires Kept(d, capacity, key, e, touched) && 1 <= capacity
    requires Harmless(op, key, now) && now < e.expiresAt
    requires |touched + TouchedBy(d, op) - {key}| < capacity
    ensures Kept(Apply(d, capacity, op), capacity, key, e, touched + TouchedBy(d, op))
  {
    match op
    case Set(k, value, ttl, at) =>
      KeptTouch(d, capacity, key, e, touched, Item(k, NewEntry(value, ttl, at)));
    case Get(k, at) =>
      if k == key {
        KeptHit(d, capacity, key, e, touched);
      } else if Lookup(d, k, at).Some? {
        DeleteUnique(d, k);
        KeptTouch(d, capacity, key, e, touched, Item(k, Lookup(d, k, at).value));
      } else if Find(d, k).Some? {
        KeptDelete(d, capacity, key, e, touched, k);
      }
  }

  lemma {:induction false} KeptThroughRun<T>(d: Dict<Entry<T>>, capacity: nat, key: string, e: Entry<T>,
                                             ops: seq<Op<T>>, now: real)
    requires Kept(d, capacity, key, e, {}) && 1 <= capacity
    requires Undisturbed(ops, key, now) && now < e.expiresAt
    requires |Touched(d, capacity, ops) - {key}| < capacity
    ensures Kept(Run(d, capacity, ops), capacity, key, e, Touched(d, capacity, ops))
  {
    if ops == [] {
    } else {
      var init, op := ops[..|ops| - 1], ops[|ops| - 1];
      SubsetSize(Touched(d, capacity, init) - {key}, Touched(d, capacity, ops) - {key});
      assert op in ops && forall o | o in init :: o in ops;
      KeptThroughRun(d, capacity, key, e, init, now);
      KeptStep(Run(d, capacity, init), capacity, key, e, Touched(d, capacity, init), op, now);
    }
  }

  // `touch` stores `e`, or is a lookup that hits it.
  ghost predicate Leaves<T>(capacity: nat, before: seq<Op<T>>, touch: Op<T>, e: Entry<T>) {
    match touch
    case Set(_, value, ttl, now) => e == NewEntry(value, ttl, now)
    case Get(key, now) => Lookup(Run([], capacity, before), key, now) == Some(e)
    case Clear => false
  }

  // The key just touched is the newest.
  lemma TouchedIsKept<T>(capacity: nat, before: seq<Op<T>>, touch: Op<T>, e: Entry<T>)
    requires 1 <= capacity && Leaves(capacity, before, touch, e)
    ensures Kept(Run([], capacity, before + [touch]), capacity, touch.key, e, {})
  {
    RunBounded([], capacity, before + [touch]);
    RunOne([], capacity, before, touch);
    var d, x := Run([], capacity, before + [touch]), Item(touch.key, e);
    assert d != [] && d[|d| - 1] == x;
  }

  // An entry set or hit by `touch` is still returned at any later `now` before its
  // expiry if since then the cache was not cleared, the key got no new value, and
  // fewer than `capacity` distinct other keys were set or hit.
  lemma {:induction false} LruRetention<T>(capacity: nat, before: seq<Op<T>>, touch: Op<T>, after: seq<Op<T>>,
                                           now: real, e: Entry<T>)
    requires 1 <= capacity && !touch.Clear?
    ensures Leaves(capacity, before, touch, e)
            && Undisturbed(after, touch.key, now) && now < e.expiresAt
            && |Touched(Run([], capacity, before + [touch]), capacity, after) - {touch.key}| < capacity
        ==> Lookup(Run([], capacity, before + [touch] + after), touch.key, now) == Some(e)
  {
    var d := Run([], capacity, before + [touch]);
    if Leaves(capacity, before, touch, e) && Undisturbed(after, touch.key, now) && now < e.expiresAt
       && |Touched(d, capacity, after) - {touch.key}| < capacity {
      RunAppend([], capacity, before + [touch], after);
      TouchedIsKept(capacity, before, touch, e);
      KeptThroughRun(d, capacity, touch.key, e, after, now);
    }
  }

  // ----- The retention bound is exact -----

  // No lookup of the run finds an item that has expired.
  ghost predicate NothingExpires<T>(d: Dict<Entry<T>>, capacity: nat, ops: seq<Op<T>>) {
    ops == [] ||
    var init, op := ops[..|ops| - 1], ops[|ops| - 1];
    NothingExpires(d, capacity, init) && Unexpired(Run(d, capacity, init), op)
  }

  predicate Unexpired<T>(d: Dict<Entry<T>>, op: Op<T>) {
    op.Get? && Find(d, op.key).Some? ==> Lookup(d, op.key, op.now).Some?
  }

  // The key is there exactly while fewer than `capacity` others were touched, which are
  // then exactly the newer items.
  ghost predicate Bounded<T>(d: Dict<Entry<T>>, capacity: nat, key: string, touched: set<string>) {
    && Unique(d) && |d| <= capacity
    && (Find(d, key).Some? <==> |touched| < capacity)
    && (Find(d, key).Some? ==> Keys(Newer(d, key)) == touched)
  }

  // A touched key is newest, and the others keep their order behind it.
  lemma NewerTouched<T>(d: Dict<Entry<T>>, key: string, x: Item<Entry<T>>)
    requires Unique(d) && x.key != key && Find(d, key).Some?
    ensures var full := Delete(d, x.key) + [x];
            && Unique(full) && |full| == (if Find(d, x.key).Some? then |d| else |d| + 1)
            && Find(full, key) == Find(d, key)
            && Keys(Newer(full, key)) == Keys(Newer(d, key)) + {x.key}
  {
    var rest := Delete(d, x.key);
    DeleteUnique(d, x.key);
    AppendUnique(rest, x);
    FindAfterDelete(d, x.key, key);
    FindAfterAppend(rest, x, key);
    NewerAppend(rest, key, x);
    NewerDelete(d, key, x.key);
    NewerKeys(d, key);
    DeleteUnique(Newer(d, key), x.key);
    KeysAppend(Delete(Newer(d, key), x.key), x);
  }

  lemma NewerSize<T>(d: Dict<Entry<T>>, key: string)
    requires Unique(d) && Find(d, key).Some?
    ensures |Keys(Newer(d, key))| == |Newer(d, key)| < |d|
    ensures d[0].key == key ==> |Newer(d, key)| == |d| - 1
  {
    NewerSuffix(d, key);
    NewerKeys(d, key);
    UniqueSize(Newer(d, key));
    if d[0].key == key {
      FirstIsOldest(d, key);
    }
  }

  // Eviction of one item drops the key exactly when everything else is newer.
  lemma BoundedEvict<T>(d: Dict<Entry<T>>, capacity: nat, key: string)
    requires Unique(d) && |d| <= capacity + 1 && Find(d, key).Some?
    ensures Bounded(Evict(d, capacity), capacity, key, Keys(Newer(d, key)))
  {
    NewerSize(d, key);
    if |d| > capacity {
      SuffixUnique(d, 1);
      if d[0].key == key {
        FirstGone(d);
      } else {
        NewerDropFirst(d, key);
        NewerSize(d[1..], key);
      }
    }
  }

  lemma {:induction false} FirstGone<T>(d: Dict<Entry<T>>)
    requires Unique(d) && d != []
    ensures Find(d[1..], d[0].key).None?
  {
    if |d| > 1 {
      var init, last := d[..|d| - 1], d[|d| - 1];
      FirstGone(init);
      KeyOfMember(init, d[0]);
      assert d[1..] == init[1..] + [last];
      FindAfterAppend(init[1..], last, d[0].key);
    }
  }

  // Absent, it stays absent without a set of its own.
  lemma StaysAbsent<T>(d: Dict<Entry<T>>, key: string, x: Item<Entry<T>>, capacity: nat)
    requires Unique(d) && |d| <= capacity && Find(d, key).None? && x.key != key
    ensures Find(Evict(Delete(d, x.key) + [x], capacity), key).None?
  {
    var full := Delete(d, x.key) + [x];
    DeleteUnique(d, x.key);
    FindAfterDelete(d, x.key, key);
    FindAfterAppend(Delete(d, x.key), x, key);
    AppendUnique(Delete(d, x.key), x);
    assert Find(full, key).None? && key !in Keys(full);
    if |full| > capacity {
      SuffixUnique(full, |full| - capacity);
      assert key !in Keys(full[|full| - capacity..]);
    }
  }

  lemma BoundedTouch<T>(d: Dict<Entry<T>>, capacity: nat, key: string, touched: set<string>, x: Item<Entry<T>>)
    requires Bounded(d, capacity, key, touched) && x.key != key && 1 <= capacity
    ensures Bounded(Evict(Delete(d, x.key) + [x], capacity), capacity, key, touched + {x.key})
  {
    if Find(d, key).Some? {
      NewerTouched(d, key, x);
      BoundedEvict(Delete(d, x.key) + [x], capacity, key);
    } else {
      SubsetSize(touched, touched + {x.key});
      StaysAbsent(d, key, x, capacity);
      AfterSetUnique(d, capacity, x.key, x.value);
    }
  }

  lemma BoundedStep<T>(d: Dict<Entry<T>>, capacity: nat, key: string, touched: set<string>, op: Op<T>)
    requires Bounded(d, capacity, key, touched) && 1 <= capacity
    requires !op.Clear? && Unexpired(d, op) && key !in TouchedBy(d, op)
    ensures Bounded(Apply(d, capacity, op), capacity, key, touched + TouchedBy(d, op))
  {
    match op
    case Set(k, value, ttl, now) =>
      assert k in TouchedBy(d, op);
      BoundedTouch(d, capacity, key, touched, Item(k, NewEntry(value, ttl, now)));
    case Get(k, now) =>
      if Lookup(d, k, now).Some? {
        assert k in TouchedBy(d, op);
        BoundedHit(d, capacity, key, touched, k, now);
      } else {
        assert Find(d, k).None?;
        assert AfterGet(d, k, now) == d && touched + TouchedBy(d, op) == touched;
      }
  }

  lemma BoundedHit<T>(d: Dict<Entry<T>>, capacity: nat, key: string, touched: set<string>, k: string, now: real)
    requires Bounded(d, capacity, key, touched) && 1 <= capacity
    requires Lookup(d, k, now).Some? && k != key
    ensures Bounded(AfterGet(d, k, now), capacity, key, touched + {k})
  {
    var x := Item(k, Lookup(d, k, now).value);
    DeleteUnique(d, k);
    assert AfterGet(d, k, now) == Delete(d, k) + [x] == Evict(Delete(d, k) + [x], capacity);
    BoundedTouch(d, capacity, key, touched, x);
  }

  ghost predicate NoClear<T>(ops: seq<Op<T>>) {
    ops == [] || (!ops[|ops| - 1].Clear? && NoClear(ops[..|ops| - 1]))
  }

  lemma {:induction false} BoundedRun<T>(d: Dict<Entry<T>>, capacity: nat, key: string, ops: seq<Op<T>>)
    requires Bounded(d, capacity, key, {}) && 1 <= capacity
    requires NoClear(ops) && NothingExpires(d, capacity, ops) && key !in Touched(d, capacity, ops)
    ensures Bounded(Run(d, capacity, ops), capacity, key, Touched(d, capacity, ops))
  {
    if ops == [] {
    } else {
      var init, op := ops[..|ops| - 1], ops[|ops| - 1];
      BoundedRun(d, capacity, key, init);
      BoundedStep(Run(d, capacity, init), capacity, key, Touched(d, capacity, init), op);
    }
  }

  // The bound is exact: over any run without a clear, without lookups of expired items,
  // and that does not set or hit the key itself, the key just touched is still stored if
  // and only if fewer than `capacity` distinct keys were set or hit since.
  lemma {:induction false} RetentionBoundExact<T>(capacity: nat, before: seq<Op<T>>, touch: Op<T>, after: seq<Op<T>>,
                                                  e: Entry<T>)
    requires 1 <= capacity && !touch.Clear? && NoClear(after)
    ensures var d := Run([], capacity, before + [touch]);
            var touched := Touched(d, capacity, after);
            Leaves(capacity, before, touch, e) && NothingExpires(d, capacity, after) && touch.key !in touched ==>
              (Find(Run([], capacity, before + [touch] + after), touch.key).Some? <==> |touched| < capacity)
  {
    var d := Run([], capacity, before + [touch]);
    if Leaves(capacity, before, touch, e) && NothingExpires(d, capacity, after)
       && touch.key !in Touched(d, capacity, after) {
      RunAppend([], capacity, before + [touch], after);
      TouchedIsKept(capacity, before, touch, e);
      BoundedRun(d, capacity, touch.key, after);
    }
  }

  // In particular `capacity` sets of distinct other keys in a row push the key out.
  lemma {:induction false} RetentionBoundTight<T>(capacity: nat, before: seq<Op<T>>, touch: Op<T>, after: seq<Op<T>>)
    requires 1 <= capacity
    requires touch.Set?
    requires |after| == capacity && AllSets(after)
    requires touch.key !in SetKeys(after) && Distinct(SetKeys(after))
    ensures Find(Run([], capacity, before + [touch] + after), touch.key).None?
  {
    SetsTouch(Run([], capacity, before + [touch]), capacity, after);
    RetentionBoundExact(capacity, before, touch, after, NewEntry(touch.value, touch.ttl, touch.now));
  }

  predicate AllSets<T>(ops: seq<Op<T>>) {
    ops == [] || (ops[|ops| - 1].Set? && AllSets(ops[..|ops| - 1]))
  }

  function SetKeys<T>(ops: seq<Op<T>>): (keys: seq<string>)
    requires AllSets(ops)
    ensures |keys| == |ops|
  {
    if ops == [] then [] else SetKeys(ops[..|ops| - 1]) + [ops[|ops| - 1].key]
  }

  lemma {:induction false} SetsTouch<T>(d: Dict<Entry<T>>, capacity: nat, ops: seq<Op<T>>)
    requires AllSets(ops) && Distinct(SetKeys(ops))
    ensures NoClear(ops) && NothingExpires(d, capacity, ops)
    ensures forall k | k in Touched(d, capacity, ops) :: k in SetKeys(ops)
    ensures |Touched(d, capacity, ops)| == |ops|
  {
    if ops == [] {
    } else {
      var init, op := ops[..|ops| - 1], ops[|ops| - 1];
      var keys := SetKeys(ops);
      assert keys[..|init|] == SetKeys(init) && keys[|init|] == op.key;
      SetsTouch(d, capacity, init);
      assert op.key !in SetKeys(init);
    }
  }
}
