// In-memory aggregation with periodic upserts, over any kind of counter.
module Aggregation {
  import opened Options
  import opened Sequences

  // How one event is keyed and counted, how two counts combine (the earlier first), and
  // which stored keys a purge at a given hour drops.
  datatype Scheme<!E, !K, !V> = Scheme(key: E -> K, one: E -> V, plus: (V, V) -> V, expired: (K, int) -> bool)

  ghost predicate Associative<E, K, V(!new)>(s: Scheme<E, K, V>) {
    forall a, b, c :: s.plus(s.plus(a, b), c) == s.plus(a, s.plus(b, c))
  }

  ghost predicate Commutative<E, K, V(!new)>(s: Scheme<E, K, V>) {
    forall a, b :: s.plus(a, b) == s.plus(b, a)
  }

  // `INSERT ... ON CONFLICT DO UPDATE`, and equally `data[key]` on a new event.
  function Upsert<E, K(==), V>(s: Scheme<E, K, V>, data: map<K, V>, key: K, value: V): map<K, V> {
    data[key := if key in data then s.plus(data[key], value) else value]
  }

  function AddEvent<E, K(==), V>(s: Scheme<E, K, V>, data: map<K, V>, e: E): map<K, V> {
    Upsert(s, data, s.key(e), s.one(e))
  }

  // One count of a whole event sequence.
  function Fold<E, K(==), V>(s: Scheme<E, K, V>, events: seq<E>): map<K, V> {
    if events == [] then map[] else AddEvent(s, Fold(s, events[..|events| - 1]), events[|events| - 1])
  }

  lemma FoldOneMore<E, K, V>(s: Scheme<E, K, V>, events: seq<E>, e: E)
    ensures Fold(s, events + [e]) == AddEvent(s, Fold(s, events), e)
  {
    assert (events + [e])[..|events|] == events;
  }

  // Two counts combined key by key.
  function Merge<E, K(==), V>(s: Scheme<E, K, V>, a: map<K, V>, b: map<K, V>): map<K, V> {
    map k | k in a.Keys + b.Keys ::
      if k in a && k in b then s.plus(a[k], b[k]) else if k in a then a[k] else b[k]
  }

  function Purge<E, K(==), V>(s: Scheme<E, K, V>, data: map<K, V>, now: int): map<K, V> {
    map k | k in data && !s.expired(k, now) :: data[k]
  }

  lemma MergeEmpty<E, K, V>(s: Scheme<E, K, V>, a: map<K, V>)
    ensures Merge(s, a, map[]) == a && Merge(s, map[], a) == a
  {
  }

  lemma MergeAssociative<E, K, V(!new)>(s: Scheme<E, K, V>, a: map<K, V>, b: map<K, V>, c: map<K, V>)
    requires Associative(s)
    ensures Merge(s, Merge(s, a, b), c) == Merge(s, a, Merge(s, b, c))
  {
  }

  lemma MergeCommutative<E, K, V(!new)>(s: Scheme<E, K, V>, a: map<K, V>, b: map<K, V>)
    requires Commutative(s)
    ensures Merge(s, a, b) == Merge(s, b, a)
  {
  }

  lemma AddIsMerge<E, K, V>(s: Scheme<E, K, V>, data: map<K, V>, e: E)
    ensures AddEvent(s, data, e) == Merge(s, data, map[s.key(e) := s.one(e)])
    ensures Fold(s, [e]) == map[s.key(e) := s.one(e)]
  {
    assert [e][..0] == [];
  }

  // Counting two sequences separately and combining is counting them in one go.
  lemma {:induction false} FoldAppend<E, K, V(!new)>(s: Scheme<E, K, V>, a: seq<E>, b: seq<E>)
    requires Associative(s)
    ensures Fold(s, a + b) == Merge(s, Fold(s, a), Fold(s, b))
  {
    if b == [] {
      assert a + b == a;
      MergeEmpty(s, Fold(s, a));
    } else {
      var init, e := b[..|b| - 1], b[|b| - 1];
      assert (a + b)[..|a + b| - 1] == a + init;
      FoldAppend(s, a, init);
      var x := map[s.key(e) := s.one(e)];
      AddIsMerge(s, Fold(s, a + init), e);
      AddIsMerge(s, Fold(s, init), e);
      MergeAssociative(s, Fold(s, a), Fold(s, init), x);
    }
  }

  // When combining does not depend on order, neither does the count.
  lemma {:induction false} FoldAnyOrder<E, K, V(!new)>(s: Scheme<E, K, V>, a: seq<E>, b: seq<E>)
    requires Associative(s) && Commutative(s)
    requires multiset(a) == multiset(b)
    ensures Fold(s, a) == Fold(s, b)
  {
    if a == [] {
      assert |multiset(b)| == |b|;
    } else {
      var init, e := a[..|a| - 1], a[|a| - 1];
      assert a == init + [e];
      assert e in multiset(b);
      var i :| 0 <= i < |b| && b[i] == e;
      var b1, b2 := b[..i], b[i + 1..];
      assert b == b1 + [e] + b2;
      RestOfBag(init, e, b1, b2);
      FoldAnyOrder(s, init, b1 + b2);
      FoldAppend(s, init, [e]);
      FoldMiddle(s, b1, e, b2);
    }
  }

  lemma RestOfBag<E>(a: seq<E>, e: E, b1: seq<E>, b2: seq<E>)
    requires multiset(a + [e]) == multiset(b1 + [e] + b2)
    ensures multiset(a) == multiset(b1 + b2)
  {
    assert multiset(a + [e]) == multiset(a) + multiset{e};
    assert multiset(b1 + [e] + b2) == multiset(b1 + b2) + multiset{e};
    assert multiset(a) == multiset(a + [e]) - multiset{e};
  }

  lemma FoldMiddle<E, K, V(!new)>(s: Scheme<E, K, V>, b1: seq<E>, e: E, b2: seq<E>)
    requires Associative(s) && Commutative(s)
    ensures Fold(s, b1 + [e] + b2) == Merge(s, Fold(s, b1 + b2), Fold(s, [e]))
  {
    FoldAppend(s, b1, b2);
    FoldAppend(s, b1 + [e], b2);
    FoldAppend(s, b1, [e]);
    var x := Fold(s, [e]);
    MergeAssociative(s, Fold(s, b1), x, Fold(s, b2));
    MergeCommutative(s, x, Fold(s, b2));
    MergeAssociative(s, Fold(s, b1), Fold(s, b2), x);
  }

  // The sum of a measure over the events with one key.
  function Measure<E, K(==), V>(s: Scheme<E, K, V>, h: V -> int, events: seq<E>, k: K): int {
    if events == [] then 0 else
      var e := events[|events| - 1];
      Measure(s, h, events[..|events| - 1], k) + if s.key(e) == k then h(s.one(e)) else 0
  }

  function MeasureAt<K(==), V>(h: V -> int, data: map<K, V>, k: K): int {
    if k in data then h(data[k]) else 0
  }

  // A measure that adds up over combined counts adds up over the events counted.
  lemma {:induction false} FoldMeasure<E, K, V(!new)>(s: Scheme<E, K, V>, h: V -> int, events: seq<E>, k: K)
    requires forall a, b :: h(s.plus(a, b)) == h(a) + h(b)
    ensures MeasureAt(h, Fold(s, events), k) == Measure(s, h, events, k)
  {
    if events == [] {
    } else {
      FoldMeasure(s, h, events[..|events| - 1], k);
    }
  }

  function MapValues<K, A, B>(f: A -> B, m: map<K, A>): map<K, B> {
    map k | k in m :: f(m[k])
  }

  // Updating a counter in a representation f maps to counts is adding the event.
  lemma UpdateRepresents<E, K, A, V>(s: Scheme<E, K, V>, f: A -> V, data: map<K, A>, e: E, next: A)
    requires f(next) == if s.key(e) in data then s.plus(f(data[s.key(e)]), s.one(e)) else s.one(e)
    ensures MapValues(f, data[s.key(e) := next]) == AddEvent(s, MapValues(f, data), e)
  {
  }

  // ----- Writing a batch -----

  function MapOf<K(==), V>(rows: seq<(K, V)>): map<K, V> {
    if rows == [] then map[] else
      var r := rows[|rows| - 1];
      MapOf(rows[..|rows| - 1])[r.0 := r.1]
  }

  ghost predicate DistinctRows<K, V>(rows: seq<(K, V)>) {
    rows == [] ||
    (DistinctRows(rows[..|rows| - 1]) && rows[|rows| - 1].0 !in MapOf(rows[..|rows| - 1]))
  }

  // Listing one more key of a batch leaves one fewer to list.
  lemma OneMoreRow<K, V>(batch: map<K, V>, rest: set<K>, rows: seq<(K, V)>, key: K)
    requires key in rest && rest <= batch.Keys
    requires DistinctRows(rows) && MapOf(rows) == batch - rest
    ensures DistinctRows(rows + [(key, batch[key])])
    ensures MapOf(rows + [(key, batch[key])]) == batch - (rest - {key})
  {
    assert (rows + [(key, batch[key])])[..|rows|] == rows;
    assert batch - (rest - {key}) == (batch - rest)[key := batch[key]];
  }

  // The rows of a batch, in some order.
  method Rows<K(==), V>(batch: map<K, V>) returns (rows: seq<(K, V)>)
    ensures DistinctRows(rows) && MapOf(rows) == batch
  {
    rows := [];
    var rest := batch.Keys;
    while rest != {}
      invariant rest <= batch.Keys
      invariant DistinctRows(rows) && MapOf(rows) == batch - rest
      decreases rest
    {
      var k :| k in rest;
      OneMoreRow(batch, rest, rows, k);
      rest, rows := rest - {k}, rows + [(k, batch[k])];
    }
  }

  function UpsertAll<E, K(==), V>(s: Scheme<E, K, V>, store: map<K, V>, rows: seq<(K, V)>): map<K, V> {
    if rows == [] then store else
      var r := rows[|rows| - 1];
      Upsert(s, UpsertAll(s, store, rows[..|rows| - 1]), r.0, r.1)
  }

  // Upserting a batch row by row, in any row order, merges it into the store.
  lemma {:induction false} UpsertAllMerges<E, K, V>(s: Scheme<E, K, V>, store: map<K, V>, rows: seq<(K, V)>)
    requires DistinctRows(rows)
    ensures UpsertAll(s, store, rows) == Merge(s, store, MapOf(rows))
  {
    if rows == [] {
      MergeEmpty(s, store);
    } else {
      UpsertAllMerges(s, store, rows[..|rows| - 1]);
    }
  }

  // ----- Runs of adds and flushes -----

  // The live buffer, a batch taken out of it but not yet written, and the table.
  datatype Buffered<K, V> = Buffered(pending: map<K, V>, taken: Option<map<K, V>>, store: map<K, V>)

  datatype Step<E> =
    | Add(event: E)
    | Take                           // flush swaps the live buffer out
    | Deliver(ok: bool, now: int)    // and writes the batch and purges, or fails and loses it

  function Next<E, K(==), V>(s: Scheme<E, K, V>, b: Buffered<K, V>, step: Step<E>): Buffered<K, V> {
    match step
    case Add(e) => b.(pending := AddEvent(s, b.pending, e))
    case Take =>
      if b.taken.Some? || b.pending == map[] then b else Buffered(map[], Some(b.pending), b.store)
    case Deliver(ok, now) =>
      if b.taken.None? then b
      else if ok then Buffered(b.pending, None, Purge(s, Merge(s, b.store, b.taken.value), now))
      else b.(taken := None)
  }

  function After<E, K(==), V>(s: Scheme<E, K, V>, steps: seq<Step<E>>): Buffered<K, V> {
    if steps == [] then Buffered(map[], None, map[])
    else Next(s, After(s, steps[..|steps| - 1]), steps[|steps| - 1])
  }

  // Where each event of a run has got to.
  datatype Ledger<E> = Ledger(delivered: seq<E>, lost: seq<E>, taken: seq<E>, pending: seq<E>)

  // `idle`: there is nothing for a flush to take, or a batch is still in flight.
  ghost function LedgerNext<E>(l: Ledger<E>, step: Step<E>, idle: bool): Ledger<E> {
    match step
    case Add(e) => l.(pending := l.pending + [e])
    case Take => if idle then l else l.(taken := l.pending, pending := [])
    case Deliver(ok, _) =>
      if ok then l.(delivered := l.delivered + l.taken, taken := []) else l.(lost := l.lost + l.taken, taken := [])
  }

  ghost function LedgerAfter<E, K, V>(s: Scheme<E, K, V>, steps: seq<Step<E>>): Ledger<E> {
    if steps == [] then Ledger([], [], [], []) else
      var init, step := steps[..|steps| - 1], steps[|steps| - 1];
      var b := After(s, init);
      LedgerNext(LedgerAfter(s, init), step, b.taken.Some? || b.pending == map[])
  }

  ghost function Total<E>(l: Ledger<E>): multiset<E> {
    multiset(l.delivered) + multiset(l.lost) + multiset(l.taken) + multiset(l.pending)
  }

  lemma TotalNext<E>(l: Ledger<E>, step: Step<E>, idle: bool)
    requires !idle ==> l.taken == []
    ensures Total(LedgerNext(l, step, idle)) == Total(l) + if step.Add? then multiset{step.event} else multiset{}
  {
  }

  function Events<E>(steps: seq<Step<E>>): seq<E> {
    if steps == [] then [] else
      Events(steps[..|steps| - 1]) + if steps[|steps| - 1].Add? then [steps[|steps| - 1].event] else []
  }

  // No purge of the run drops the key.
  ghost predicate Retained<E, K, V>(s: Scheme<E, K, V>, steps: seq<Step<E>>, k: K) {
    forall step | step in steps :: step.Deliver? && step.ok ==> !s.expired(k, step.now)
  }

  function TakenOr<K, V>(b: Buffered<K, V>): map<K, V> {
    match b.taken case Some(m) => m case None => map[]
  }

  ghost predicate SameAt<K, V>(a: map<K, V>, b: map<K, V>, k: K) {
    (k in a <==> k in b) && (k in a ==> a[k] == b[k])
  }

  lemma MergeSameAt<E, K, V>(s: Scheme<E, K, V>, a: map<K, V>, a': map<K, V>, b: map<K, V>, k: K)
    requires SameAt(a, a', k)
    ensures SameAt(Merge(s, a, b), Merge(s, a', b), k)
  {
  }

  lemma {:induction false} FoldEmpty<E, K, V>(s: Scheme<E, K, V>, events: seq<E>)
    ensures Fold(s, events) == map[] <==> events == []
  {
    if events != [] {
      assert s.key(events[|events| - 1]) in Fold(s, events);
    }
  }

  // Each part of the state counts exactly the events the ledger puts there.
  lemma {:induction false} LedgerExact<E, K(!new), V(!new)>(s: Scheme<E, K, V>, steps: seq<Step<E>>)
    requires Associative(s)
    ensures var b, l := After(s, steps), LedgerAfter(s, steps);
            && b.pending == Fold(s, l.pending)
            && TakenOr(b) == Fold(s, l.taken)
            && (b.taken.None? <==> l.taken == [])
            && forall k | Retained(s, steps, k) :: SameAt(b.store, Fold(s, l.delivered), k)
  {
    if steps == [] {
    } else {
      var init, step := steps[..|steps| - 1], steps[|steps| - 1];
      LedgerExact(s, init);
      var b, l := After(s, init), LedgerAfter(s, init);
      match step
      case Add(e) =>
        assert (l.pending + [e])[..|l.pending|] == l.pending;
        RetainedEarlier(s, steps);
      case Take =>
        FoldEmpty(s, l.pending);
        RetainedEarlier(s, steps);
      case Deliver(ok, now) =>
        RetainedEarlier(s, steps);
        if ok {
          FoldAppend(s, l.delivered, l.taken);
          MergeEmpty(s, Fold(s, l.delivered));
          forall k | Retained(s, steps, k)
            ensures SameAt(After(s, steps).store, Fold(s, l.delivered + l.taken), k)
          {
            assert step in steps;
            MergeSameAt(s, b.store, Fold(s, l.delivered), TakenOr(b), k);
          }
        }
    }
  }

  lemma RetainedEarlier<E, K(!new), V>(s: Scheme<E, K, V>, steps: seq<Step<E>>)
    requires steps != []
    ensures forall k | Retained(s, steps, k) :: Retained(s, steps[..|steps| - 1], k)
  {
    assert forall x | x in steps[..|steps| - 1] :: x in steps;
  }

  // Every event of a run is in exactly one place.
  lemma {:induction false} LedgerComplete<E, K, V>(s: Scheme<E, K, V>, steps: seq<Step<E>>)
    ensures Total(LedgerAfter(s, steps)) == multiset(Events(steps))
  {
    if steps == [] {
    } else {
      var init, step := steps[..|steps| - 1], steps[|steps| - 1];
      LedgerComplete(s, init);
      LedgerExactTaken(s, init);
      var b := After(s, init);
      TotalNext(LedgerAfter(s, init), step, b.taken.Some? || b.pending == map[]);
    }
  }

  lemma NextInOrder<E>(l: Ledger<E>, step: Step<E>, idle: bool)
    requires l.lost == [] && (!idle ==> l.taken == []) && (step.Deliver? ==> step.ok)
    ensures var next := LedgerNext(l, step, idle);
            next.lost == [] && next.delivered + next.taken + next.pending
                               == l.delivered + l.taken + l.pending + if step.Add? then [step.event] else []
  {
    if step.Add? {
      Regroup(l.delivered + l.taken, l.pending, [step.event]);
    }
  }

  // Without a failed write the events are still in the order they came in.
  lemma {:induction false} LedgerInOrder<E, K, V>(s: Scheme<E, K, V>, steps: seq<Step<E>>)
    requires forall step | step in steps :: step.Deliver? ==> step.ok
    ensures var l := LedgerAfter(s, steps);
            l.lost == [] && l.delivered + l.taken + l.pending == Events(steps)
  {
    if steps == [] {
    } else {
      var init, step := steps[..|steps| - 1], steps[|steps| - 1];
      assert step in steps && forall x | x in init :: x in steps;
      LedgerInOrder(s, init);
      LedgerExactTaken(s, init);
      var l := LedgerAfter(s, init);
      var b := After(s, init);
      NextInOrder(l, step, b.taken.Some? || b.pending == map[]);
    }
  }

  lemma {:induction false} LedgerExactTaken<E, K, V>(s: Scheme<E, K, V>, steps: seq<Step<E>>)
    ensures After(s, steps).taken.None? ==> LedgerAfter(s, steps).taken == []
  {
    if steps == [] {
    } else {
      LedgerExactTaken(s, steps[..|steps| - 1]);
    }
  }

  // What the table, the batch in flight and the live buffer hold together.
  function Held<E, K(==), V>(s: Scheme<E, K, V>, b: Buffered<K, V>): map<K, V> {
    Merge(s, Merge(s, b.store, TakenOr(b)), b.pending)
  }

  // When no write fails, the flush schedule cannot be told from the totals: at every key
  // no purge dropped they are one count of all events in order.
  lemma {:induction false} FlushScheduleIndependence<E, K(!new), V(!new)>(s: Scheme<E, K, V>, steps: seq<Step<E>>, k: K)
    requires Associative(s) && Retained(s, steps, k)
    requires forall step | step in steps :: step.Deliver? ==> step.ok
    ensures SameAt(Held(s, After(s, steps)), Fold(s, Events(steps)), k)
  {
    LedgerInOrder(s, steps);
    HeldIsKept(s, steps, k);
  }

  // With failed writes, the totals are one count of the events that were not lost.
  lemma {:induction false} HeldIsKept<E, K(!new), V(!new)>(s: Scheme<E, K, V>, steps: seq<Step<E>>, k: K)
    requires Associative(s) && Retained(s, steps, k)
    ensures var l := LedgerAfter(s, steps);
            SameAt(Held(s, After(s, steps)), Fold(s, l.delivered + l.taken + l.pending), k)
  {
    LedgerExact(s, steps);
    var b, l := After(s, steps), LedgerAfter(s, steps);
    FoldAppend(s, l.delivered, l.taken);
    FoldAppend(s, l.delivered + l.taken, l.pending);
    MergeSameAt(s, b.store, Fold(s, l.delivered), TakenOr(b), k);
    MergeSameAt(s, Merge(s, b.store, TakenOr(b)), Fold(s, l.delivered + l.taken), b.pending, k);
  }

  // For counts that combine in any order, held plus lost is one count of everything.
  lemma {:induction false} HeldPlusLost<E, K(!new), V(!new)>(s: Scheme<E, K, V>, steps: seq<Step<E>>, k: K)
    requires Associative(s) && Commutative(s) && Retained(s, steps, k)
    ensures SameAt(Merge(s, Held(s, After(s, steps)), Fold(s, LedgerAfter(s, steps).lost)),
                   Fold(s, Events(steps)), k)
  {
    var l := LedgerAfter(s, steps);
    HeldIsKept(s, steps, k);
    LedgerComplete(s, steps);
    var kept := l.delivered + l.taken + l.pending;
    MergeSameAt(s, Held(s, After(s, steps)), Fold(s, kept), Fold(s, l.lost), k);
    FoldAppend(s, kept, l.lost);
    assert multiset(kept + l.lost) == multiset(Events(steps));
    FoldAnyOrder(s, kept + l.lost, Events(steps));
  }

  // ----- Sums over a whole table -----

  ghost function SumOver<K(!new), V>(h: V -> int, m: map<K, V>): int {
    if m == map[] then 0 else
      var k :| k in m;
      h(m[k]) + SumOver(h, m - {k})
  }

  // Any row may be set apart.
  lemma {:induction false} SumApart<K(!new), V>(h: V -> int, m: map<K, V>, k: K)
    requires k in m
    ensures SumOver(h, m) == h(m[k]) + SumOver(h, m - {k})
    decreases |m|
  {
    var j :| j in m && SumOver(h, m) == h(m[j]) + SumOver(h, m - {j});
    if j != k {
      SumApart(h, m - {j}, k);
      SumApart(h, m - {k}, j);
      assert m - {j} - {k} == m - {k} - {j};
    }
  }

  // Adding an event adds its measure to the sum, whatever row it goes to.
  lemma SumAdd<E, K(!new), V(!new)>(s: Scheme<E, K, V>, h: V -> int, data: map<K, V>, e: E)
    requires forall a, b :: h(s.plus(a, b)) == h(a) + h(b)
    ensures SumOver(h, AddEvent(s, data, e)) == SumOver(h, data) + h(s.one(e))
  {
    var k, after := s.key(e), AddEvent(s, data, e);
    SumApart(h, after, k);
    assert after - {k} == data - {k};
    if k in data {
      SumApart(h, data, k);
    } else {
      assert data - {k} == data;
    }
  }

  // No write of the run purges a row the events count in.
  ghost predicate AllRetained<E, K(!new), V>(s: Scheme<E, K, V>, steps: seq<Step<E>>) {
    forall k | k in Fold(s, Events(steps)) :: Retained(s, steps, k)
  }

  // No part of the state has a row of which there was no event.
  lemma {:induction false} RowsHaveEvents<E, K(!new), V(!new)>(s: Scheme<E, K, V>, steps: seq<Step<E>>, k: K)
    requires k in Held(s, After(s, steps))
    ensures k in Fold(s, Events(steps))
  {
    if steps == [] {
    } else {
      var init, step := steps[..|steps| - 1], steps[|steps| - 1];
      RowsStep(s, After(s, init), step, k);
      if k in Held(s, After(s, init)) {
        RowsHaveEvents(s, init, k);
      }
      if step.Add? {
        assert (Events(init) + [step.event])[..|Events(init)|] == Events(init);
        assert Fold(s, Events(steps)) == AddEvent(s, Fold(s, Events(init)), step.event);
      } else {
        assert Events(steps) == Events(init);
      }
    }
  }

  lemma RowsStep<E, K(!new), V>(s: Scheme<E, K, V>, b: Buffered<K, V>, step: Step<E>, k: K)
    requires k in Held(s, Next(s, b, step))
    ensures k in Held(s, b) || (step.Add? && k == s.key(step.event))
  {
  }

  // The whole held table, not only single rows, is one count of all events.
  lemma {:induction false} HeldIsFold<E, K(!new), V(!new)>(s: Scheme<E, K, V>, steps: seq<Step<E>>)
    requires Associative(s) && AllRetained(s, steps)
    requires forall step | step in steps :: step.Deliver? ==> step.ok
    ensures Held(s, After(s, steps)) == Fold(s, Events(steps))
  {
    var held, all := Held(s, After(s, steps)), Fold(s, Events(steps));
    forall k
      ensures (k in held <==> k in all) && (k in all ==> held[k] == all[k])
    {
      if k in all {
        FlushScheduleIndependence(s, steps, k);
      } else if k in held {
        RowsHaveEvents(s, steps, k);
      }
    }
  }
}
