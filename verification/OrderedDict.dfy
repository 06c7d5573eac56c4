// `collections.OrderedDict` with string keys, as its items from oldest to newest.
module OrderedDict {
  import opened Options

  datatype Item<+V> = Item(key: string, value: V)

  type Dict<+V> = seq<Item<V>>

  ghost function Keys<V>(d: Dict<V>): set<string> {
    if d == [] then {} else Keys(d[..|d| - 1]) + {d[|d| - 1].key}
  }

  // No key occurs twice.
  ghost predicate Unique<V>(d: Dict<V>) {
    d == [] || (Unique(d[..|d| - 1]) && d[|d| - 1].key !in Keys(d[..|d| - 1]))
  }

  // `d.get(key)`
  function Find<V>(d: Dict<V>, key: string): (r: Option<V>)
    ensures r.Some? <==> key in Keys(d)
  {
    if d == [] then None
    else
      var last := d[|d| - 1];
      if last.key == key then Some(last.value) else Find(d[..|d| - 1], key)
  }

  // `del d[key]`; the items keep their order.
  function Delete<V>(d: Dict<V>, key: string): (r: Dict<V>)
    ensures |r| <= |d|
  {
    if d == [] then []
    else
      var init, last := d[..|d| - 1], d[|d| - 1];
      if last.key == key then Delete(init, key) else Delete(init, key) + [last]
  }

  function Replace<V>(d: Dict<V>, key: string, value: V): Dict<V>
    requires key in Keys(d)
  {
    var init, last := d[..|d| - 1], d[|d| - 1];
    if last.key == key then init + [Item(key, value)] else Replace(init, key, value) + [last]
  }

  // `d[key] = value`: an existing key keeps its place, a new one goes last.
  function Assign<V>(d: Dict<V>, key: string, value: V): Dict<V> {
    if Find(d, key).Some? then Replace(d, key, value) else d + [Item(key, value)]
  }

  // `d.move_to_end(key)`
  function MoveToEnd<V>(d: Dict<V>, key: string): Dict<V>
    requires key in Keys(d)
  {
    Delete(d, key) + [Item(key, Find(d, key).value)]
  }

  lemma {:induction false} DeleteMembers<V>(d: Dict<V>, key: string, x: Item<V>)
    ensures x in Delete(d, key) <==> x in d && x.key != key
  {
    if d == [] {
    } else {
      DeleteMembers(d[..|d| - 1], key, x);
    }
  }

  lemma {:induction false} DeleteAbsent<V>(d: Dict<V>, key: string)
    requires key !in Keys(d)
    ensures Delete(d, key) == d
  {
    if d == [] {
    } else {
      DeleteAbsent(d[..|d| - 1], key);
      assert d == d[..|d| - 1] + [d[|d| - 1]];
    }
  }

  lemma KeysAppend<V>(d: Dict<V>, x: Item<V>)
    ensures Keys(d + [x]) == Keys(d) + {x.key}
    ensures Unique(d + [x]) <==> Unique(d) && x.key !in Keys(d)
  {
    assert (d + [x])[..|d|] == d;
  }

  lemma {:induction false} DeleteKeys<V>(d: Dict<V>, key: string)
    requires Unique(d)
    ensures Keys(Delete(d, key)) == Keys(d) - {key}
  {
    if d == [] {
    } else {
      var init, last := d[..|d| - 1], d[|d| - 1];
      DeleteKeys(init, key);
      assert Keys(d) == Keys(init) + {last.key};
      if last.key == key {
        assert Delete(d, key) == Delete(init, key);
      } else {
        assert Delete(d, key) == Delete(init, key) + [last];
        KeysAppend(Delete(init, key), last);
      }
    }
  }

  lemma {:induction false} DeleteUnique<V>(d: Dict<V>, key: string)
    requires Unique(d)
    ensures Unique(Delete(d, key))
    ensures Keys(Delete(d, key)) == Keys(d) - {key}
    ensures |Delete(d, key)| == if key in Keys(d) then |d| - 1 else |d|
  {
    DeleteKeys(d, key);
    if d != [] {
      var init, last := d[..|d| - 1], d[|d| - 1];
      DeleteUnique(init, key);
      if last.key == key {
        assert Delete(d, key) == Delete(init, key);
      } else {
        assert Delete(d, key) == Delete(init, key) + [last];
        KeysAppend(Delete(init, key), last);
      }
    }
  }

  lemma AppendUnique<V>(d: Dict<V>, x: Item<V>)
    requires Unique(d) && x.key !in Keys(d)
    ensures Unique(d + [x])
    ensures Keys(d + [x]) == Keys(d) + {x.key}
  {
    KeysAppend(d, x);
  }

  lemma KeyOfMember<V>(d: Dict<V>, x: Item<V>)
    requires x in d
    ensures x.key in Keys(d)
  {
    if x != d[|d| - 1] {
      KeyOfMember(d[..|d| - 1], x);
    }
  }

  lemma {:induction false} FindMember<V>(d: Dict<V>, key: string)
    requires Find(d, key).Some?
    ensures Item(key, Find(d, key).value) in d
  {
    if d[|d| - 1].key != key {
      FindMember(d[..|d| - 1], key);
    }
  }

  lemma {:induction false} FindUnique<V>(d: Dict<V>, x: Item<V>)
    requires Unique(d) && x in d
    ensures Find(d, x.key) == Some(x.value)
  {
    var init := d[..|d| - 1];
    if x in init {
      KeyOfMember(init, x);
      FindUnique(init, x);
    }
  }

  // Dropping the oldest items keeps the rest.
  lemma {:induction false} SuffixUnique<V>(d: Dict<V>, n: nat)
    requires Unique(d) && n <= |d|
    ensures Unique(d[n..]) && Keys(d[n..]) <= Keys(d)
  {
    if n < |d| {
      var init := d[..|d| - 1];
      SuffixUnique(init, n);
      assert d[n..] == init[n..] + [d[|d| - 1]];
      AppendUnique(init[n..], d[|d| - 1]);
    }
  }

  lemma FindAfterDelete<V>(d: Dict<V>, key: string, other: string)
    requires Unique(d)
    ensures Find(Delete(d, key), other) == if other == key then None else Find(d, other)
  {
    DeleteUnique(d, key);
    if other != key && other in Keys(d) {
      var x := Item(other, Find(d, other).value);
      FindMember(d, other);
      DeleteMembers(d, key, x);
      FindUnique(Delete(d, key), x);
    }
  }

  lemma FindAfterAppend<V>(d: Dict<V>, x: Item<V>, key: string)
    ensures Find(d + [x], key) == if key == x.key then Some(x.value) else Find(d, key)
  {
    assert (d + [x])[..|d|] == d;
  }

  lemma DeleteAppend<V>(d: Dict<V>, x: Item<V>, key: string)
    ensures Delete(d + [x], key) == if x.key == key then Delete(d, key) else Delete(d, key) + [x]
  {
    assert (d + [x])[..|d|] == d;
  }

  lemma {:induction false} ReplaceItems<V>(d: Dict<V>, key: string, value: V)
    requires key in Keys(d)
    ensures Find(Replace(d, key, value), key) == Some(value)
    ensures Delete(Replace(d, key, value), key) == Delete(d, key)
  {
    var init, last := d[..|d| - 1], d[|d| - 1];
    assert d == init + [last];
    DeleteAppend(init, last, key);
    if last.key == key {
      FindAfterAppend(init, Item(key, value), key);
      DeleteAppend(init, Item(key, value), key);
    } else {
      ReplaceItems(init, key, value);
      FindAfterAppend(Replace(init, key, value), last, key);
      DeleteAppend(Replace(init, key, value), last, key);
    }
  }

  // Storing under a key and moving it to the end leaves it last, the rest in order.
  lemma AssignThenMove<V>(d: Dict<V>, key: string, value: V)
    ensures key in Keys(Assign(d, key, value))
    ensures MoveToEnd(Assign(d, key, value), key) == Delete(d, key) + [Item(key, value)]
  {
    if key in Keys(d) {
      ReplaceItems(d, key, value);
    } else {
      FindAfterAppend(d, Item(key, value), key);
      DeleteAppend(d, Item(key, value), key);
    }
  }

  lemma {:induction false} UniqueSize<V>(d: Dict<V>)
    requires Unique(d)
    ensures |Keys(d)| == |d|
  {
    if d == [] {
    } else {
      UniqueSize(d[..|d| - 1]);
    }
  }

  // `a` is `b` with some items left out.
  ghost predicate Subsequence<V>(a: Dict<V>, b: Dict<V>)
    decreases |b|
  {
    a == [] ||
    (b != [] &&
     ((a[|a| - 1] == b[|b| - 1] && Subsequence(a[..|a| - 1], b[..|b| - 1]))
      || Subsequence(a, b[..|b| - 1])))
  }

  lemma {:induction false} SubsequenceMember<V>(a: Dict<V>, b: Dict<V>, x: Item<V>)
    requires Subsequence(a, b) && x in a
    ensures x in b
    decreases |b|
  {
    var a', b' := a[..|a| - 1], b[..|b| - 1];
    if a[|a| - 1] == b[|b| - 1] && Subsequence(a', b') {
      if x in a' {
        SubsequenceMember(a', b', x);
      }
    } else {
      SubsequenceMember(a, b', x);
    }
  }

  lemma {:induction false} SubsequenceKeys<V>(a: Dict<V>, b: Dict<V>)
    requires Subsequence(a, b)
    ensures Keys(a) <= Keys(b) && |a| <= |b|
    decreases |b|
  {
    if a == [] {
    } else {
      var a', b' := a[..|a| - 1], b[..|b| - 1];
      if a[|a| - 1] == b[|b| - 1] && Subsequence(a', b') {
        SubsequenceKeys(a', b');
      } else {
        SubsequenceKeys(a, b');
      }
    }
  }

  lemma SubsequenceAppend<V>(a: Dict<V>, b: Dict<V>, x: Item<V>)
    requires Subsequence(a, b)
    ensures Subsequence(a + [x], b + [x])
    ensures Subsequence(a, b + [x])
  {
    assert (a + [x])[..|a|] == a && (b + [x])[..|b|] == b;
  }

  lemma {:induction false} SubsequenceDelete<V>(a: Dict<V>, b: Dict<V>, key: string)
    requires Subsequence(a, b)
    ensures Subsequence(Delete(a, key), Delete(b, key))
    decreases |b|
  {
    if a == [] {
    } else {
      var a', b' := a[..|a| - 1], b[..|b| - 1];
      if a[|a| - 1] == b[|b| - 1] && Subsequence(a', b') {
        SubsequenceDelete(a', b', key);
        SubsequenceAppend(Delete(a', key), Delete(b', key), b[|b| - 1]);
      } else {
        SubsequenceDelete(a, b', key);
        SubsequenceAppend(Delete(a, key), Delete(b', key), b[|b| - 1]);
      }
    }
  }

  lemma {:induction false} SubsequenceDropBoth<V>(a: Dict<V>, b: Dict<V>)
    requires Subsequence(a, b) && a != []
    ensures Subsequence(a[1..], b[1..])
    decreases |b|
  {
    var a', b', x := a[..|a| - 1], b[..|b| - 1], b[|b| - 1];
    if a' == [] {
      assert a[1..] == [];
    } else if a[|a| - 1] == x && Subsequence(a', b') {
      SubsequenceDropBoth(a', b');
      assert a[1..] == a'[1..] + [x] && b[1..] == b'[1..] + [x];
      SubsequenceAppend(a'[1..], b'[1..], x);
    } else {
      SubsequenceDropBoth(a, b');
      assert b[1..] == b'[1..] + [x];
      SubsequenceAppend(a[1..], b'[1..], x);
    }
  }

  lemma SubsequenceDropLeft<V>(a: Dict<V>, b: Dict<V>)
    requires Subsequence(a, b) && a != []
    ensures Subsequence(a[1..], b)
  {
    SubsequenceDropBoth(a, b);
    SubsequencePrepend(a[1..], b[1..], b[0]);
    assert [b[0]] + b[1..] == b;
  }

  lemma {:induction false} SubsequencePrepend<V>(a: Dict<V>, b: Dict<V>, x: Item<V>)
    requires Subsequence(a, b)
    ensures Subsequence(a, [x] + b)
    decreases |b|
  {
    if a == [] {
    } else {
      var b', w := b[..|b| - 1], [x] + b;
      assert w[..|w| - 1] == [x] + b';
      if a[|a| - 1] == b[|b| - 1] && Subsequence(a[..|a| - 1], b') {
        SubsequencePrepend(a[..|a| - 1], b', x);
      } else {
        SubsequencePrepend(a, b', x);
      }
    }
  }

  lemma {:induction false} ReplaceUnique<V>(d: Dict<V>, key: string, value: V, k: string)
    requires Unique(d) && key in Keys(d)
    ensures Unique(Replace(d, key, value))
    ensures Keys(Replace(d, key, value)) == Keys(d)
    ensures Find(Replace(d, key, value), k) == if k == key then Some(value) else Find(d, k)
  {
    var init, last := d[..|d| - 1], d[|d| - 1];
    if last.key == key {
      AppendUnique(init, Item(key, value));
      FindAfterAppend(init, Item(key, value), k);
    } else {
      ReplaceUnique(init, key, value, k);
      AppendUnique(Replace(init, key, value), last);
      FindAfterAppend(Replace(init, key, value), last, k);
    }
  }
}
