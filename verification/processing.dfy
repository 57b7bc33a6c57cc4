/**
 * Post-processing of the merged records (`process_data`): optional removal
 * of duplicates, keeping the first record of each (`Data`, `Descrizione`,
 * `Importo`) key, then an optional stable sort by the parsed `Data`.
 */
module Processing {
  import opened Wrappers
  import opened Dates
  import opened Records

  /**
   * The identity of a record: date, description and amount; the other fields
   * do not count. Keying on the date is keying on the `Data` text, since
   * `DateText` is one-to-one (`Records.DateTextParses`).
   */
  type Key = (Date, string, nat)

  function KeyOf(m: Movement): Key {
    (m.date, m.description, m.amount)
  }

  function KeysOf(s: seq<Movement>): set<Key> {
    set m | m in s :: KeyOf(m)
  }

  /**
   * Two records have the same key exactly when they have the same
   * (`Data`, `Descrizione`, `Importo`) triple, the source's own key.
   */
  lemma KeyOfIsSourceKey(m: Movement, n: Movement)
    ensures KeyOf(m) == KeyOf(n) <==>
      (DateText(m), m.description, m.amount) == (DateText(n), n.description, n.amount)
  {
    DateTextParses(m, n);
  }

  /** No two records share a key. */
  predicate NoDuplicateKeys(s: seq<Movement>) {
    forall i, j | 0 <= i < j < |s| :: KeyOf(s[i]) != KeyOf(s[j])
  }

  /** `a` is `b` with some records left out, the rest in the same relative order. */
  predicate IsSubsequence(a: seq<Movement>, b: seq<Movement>)
    decreases |b|
  {
    a == [] ||
    (b != [] &&
      ((a[|a| - 1] == b[|b| - 1] && IsSubsequence(a[..|a| - 1], b[..|b| - 1])) ||
       IsSubsequence(a, b[..|b| - 1])))
  }

  /** The earliest record of `s` with key `k`, if any. */
  function FirstWithKey(s: seq<Movement>, k: Key): (r: Option<Movement>)
  {
    if s == [] then None
    else
      var earlier := FirstWithKey(s[..|s| - 1], k);
      if earlier.Some? then earlier
      else if KeyOf(s[|s| - 1]) == k then Some(s[|s| - 1])
      else None
  }

  /**
   * Duplicate removal as a filter: a record is kept exactly when no earlier
   * record has its key.
   */
  function Dedup(s: seq<Movement>): (r: seq<Movement>)
    ensures |r| <= |s|
  {
    if s == [] then []
    else
      var init := s[..|s| - 1];
      Dedup(init) + (if KeyOf(s[|s| - 1]) in KeysOf(init) then [] else [s[|s| - 1]])
  }

  lemma KeysOfSnoc(s: seq<Movement>, x: Movement)
    ensures KeysOf(s + [x]) == KeysOf(s) + {KeyOf(x)}
  {
  }

  lemma NoDuplicateKeysSnoc(s: seq<Movement>, x: Movement)
    ensures NoDuplicateKeys(s + [x]) <==> NoDuplicateKeys(s) && KeyOf(x) !in KeysOf(s)
  {
    var t := s + [x];
    if NoDuplicateKeys(t) {
      assert forall i, j | 0 <= i < j < |s| :: s[i] == t[i] && s[j] == t[j];
      forall m | m in s ensures KeyOf(m) != KeyOf(x) {
        var i :| 0 <= i < |s| && s[i] == m;
        assert t[i] == m && t[|s|] == x;
      }
    }
    if NoDuplicateKeys(s) && KeyOf(x) !in KeysOf(s) {
      forall i, j | 0 <= i < j < |t| ensures KeyOf(t[i]) != KeyOf(t[j]) {
        if j == |s| {
          assert t[i] in s;
        }
      }
    }
  }

  /** Every key of the input is kept. */
  lemma {:induction false} DedupKeys(s: seq<Movement>)
    ensures KeysOf(Dedup(s)) == KeysOf(s)
  {
    if s != [] {
      var init, last := s[..|s| - 1], s[|s| - 1];
      assert s == init + [last];
      DedupKeys(init);
      KeysOfSnoc(init, last);
      if KeyOf(last) !in KeysOf(init) {
        KeysOfSnoc(Dedup(init), last);
      }
    }
  }

  /** No key is kept twice. */
  lemma {:induction false} DedupNoDuplicates(s: seq<Movement>)
    ensures NoDuplicateKeys(Dedup(s))
  {
    if s != [] {
      var init, last := s[..|s| - 1], s[|s| - 1];
      DedupNoDuplicates(init);
      if KeyOf(last) !in KeysOf(init) {
        DedupKeys(init);
        NoDuplicateKeysSnoc(Dedup(init), last);
      }
    }
  }

  /** The kept records are records of the input, in their input order. */
  lemma {:induction false} DedupIsSubsequence(s: seq<Movement>)
    ensures IsSubsequence(Dedup(s), s)
  {
    if s != [] {
      var init, last := s[..|s| - 1], s[|s| - 1];
      DedupIsSubsequence(init);
      var r := Dedup(s);
      if KeyOf(last) in KeysOf(init) {
        assert r == Dedup(init) + [];
        assert r == Dedup(init);
      } else {
        assert r == Dedup(init) + [last];
        assert r[|r| - 1] == last;
        assert r[..|r| - 1] == Dedup(init);
      }
    }
  }

  /** Only records of the input are kept, each at most as often as it occurs there. */
  lemma {:induction false} DedupSubMultiset(s: seq<Movement>)
    ensures multiset(Dedup(s)) <= multiset(s)
  {
    if s != [] {
      var init, last := s[..|s| - 1], s[|s| - 1];
      assert s == init + [last];
      DedupSubMultiset(init);
    }
  }

  lemma {:induction false} FirstWithKeyExists(s: seq<Movement>, k: Key)
    ensures FirstWithKey(s, k).Some? <==> k in KeysOf(s)
  {
    if s != [] {
      var init, last := s[..|s| - 1], s[|s| - 1];
      FirstWithKeyExists(init, k);
      KeysOfSnoc(init, last);
      assert s == init + [last];
    }
  }

  /** Each kept record is the first record of the input with its key. */
  lemma {:induction false} DedupKeepsFirst(s: seq<Movement>)
    ensures forall m <- Dedup(s) :: FirstWithKey(s, KeyOf(m)) == Some(m)
  {
    if s != [] {
      var init, last := s[..|s| - 1], s[|s| - 1];
      DedupKeepsFirst(init);
      forall m <- Dedup(s) ensures FirstWithKey(s, KeyOf(m)) == Some(m) {
        if m in Dedup(init) {
          assert FirstWithKey(init, KeyOf(m)) == Some(m);
        } else {
          assert m == last && KeyOf(last) !in KeysOf(init);
          FirstWithKeyExists(init, KeyOf(last));
        }
      }
    }
  }

  /** Input without duplicate keys passes through unchanged. */
  lemma {:induction false} DedupOfUniqueIsIdentity(s: seq<Movement>)
    requires NoDuplicateKeys(s)
    ensures Dedup(s) == s
  {
    if s != [] {
      var init, last := s[..|s| - 1], s[|s| - 1];
      assert s == init + [last];
      NoDuplicateKeysSnoc(init, last);
      DedupOfUniqueIsIdentity(init);
    }
  }

  /** Removing duplicates twice is removing them once. */
  lemma DedupIdempotent(s: seq<Movement>)
    ensures Dedup(Dedup(s)) == Dedup(s)
  {
    DedupNoDuplicates(s);
    DedupOfUniqueIsIdentity(Dedup(s));
  }

  /** The sort key: the parsed `Data`, as a number that orders dates chronologically. */
  function DateKey(m: Movement): int {
    Ordinal(m.date)
  }

  /**
   * Comparing sort keys is comparing the dates parsed from `Data`, as
   * `datetime` does: earlier or equal key exactly when not a later date.
   */
  lemma DateKeyIsParsedData(m: Movement, n: Movement)
    ensures ParseDate(DateText(m)) == Some(m.date)
    ensures DateKey(m) <= DateKey(n) <==> NotAfter(m.date, n.date)
    ensures DateKey(m) == DateKey(n) <==> DateText(m) == DateText(n)
  {
    DateTextParses(m, n);
    OrdinalIsChronological(m.date, n.date);
  }

  /**
   * Inserts `x` after every record whose date is not later than its own, so
   * records with equal dates stay in arrival order.
   */
  function Insert(x: Movement, s: seq<Movement>): (r: seq<Movement>)
    ensures multiset(r) == multiset(s) + multiset{x}
    ensures forall m <- r :: m == x || m in s
  {
    if s == [] || DateKey(s[|s| - 1]) <= DateKey(x) then s + [x]
    else
      var init := s[..|s| - 1];
      assert s == init + [s[|s| - 1]];
      Insert(x, init) + [s[|s| - 1]]
  }

  /** A stable sort by date: insertion of each record, in input order, into the sorted prefix. */
  function SortByDate(s: seq<Movement>): (r: seq<Movement>)
    ensures multiset(r) == multiset(s)
  {
    if s == [] then []
    else
      var init := s[..|s| - 1];
      assert s == init + [s[|s| - 1]];
      Insert(s[|s| - 1], SortByDate(init))
  }

  predicate SortedByDate(s: seq<Movement>)
  {
    forall i, j | 0 <= i < j < |s| :: DateKey(s[i]) <= DateKey(s[j])
  }

  /** The records of `s` whose date has sort key `k`, in their order in `s`. */
  function WithDate(s: seq<Movement>, k: int): (r: seq<Movement>)
  {
    if s == [] then []
    else
      var last := s[|s| - 1];
      WithDate(s[..|s| - 1], k) + (if DateKey(last) == k then [last] else [])
  }

  lemma {:induction false} InsertSorted(x: Movement, s: seq<Movement>)
    requires SortedByDate(s)
    ensures SortedByDate(Insert(x, s))
  {
    if s != [] && DateKey(s[|s| - 1]) > DateKey(x) {
      var init, last := s[..|s| - 1], s[|s| - 1];
      InsertSorted(x, init);
      var r := Insert(x, s);
      var front := Insert(x, init);
      assert r == front + [last];
      forall m <- front ensures DateKey(m) <= DateKey(last) {
        if m != x {
          var i :| 0 <= i < |init| && init[i] == m;
          assert s[i] == m;
        }
      }
      forall i, j | 0 <= i < j < |r| ensures DateKey(r[i]) <= DateKey(r[j]) {
        if j == |r| - 1 {
          assert r[i] in front;
        } else {
          assert r[i] == front[i] && r[j] == front[j];
        }
      }
    } else {
      var r := Insert(x, s);
      forall i, j | 0 <= i < j < |r| ensures DateKey(r[i]) <= DateKey(r[j]) {
        if j == |s| && i < |s| - 1 {
          assert DateKey(s[i]) <= DateKey(s[|s| - 1]);
        }
      }
    }
  }

  /** The sort's output is in chronological order. */
  lemma {:induction false} SortByDateSorted(s: seq<Movement>)
    ensures SortedByDate(SortByDate(s))
  {
    if s != [] {
      var init := s[..|s| - 1];
      SortByDateSorted(init);
      InsertSorted(s[|s| - 1], SortByDate(init));
    }
  }

  lemma WithDateSnoc(s: seq<Movement>, m: Movement, k: int)
    ensures WithDate(s + [m], k) == WithDate(s, k) + (if DateKey(m) == k then [m] else [])
  {
    assert (s + [m])[..|s|] == s;
  }

  lemma {:induction false} InsertStable(x: Movement, s: seq<Movement>, k: int)
    ensures WithDate(Insert(x, s), k) == WithDate(s, k) + (if DateKey(x) == k then [x] else [])
  {
    if s == [] || DateKey(s[|s| - 1]) <= DateKey(x) {
      assert Insert(x, s) == s + [x];
      WithDateSnoc(s, x, k);
    } else {
      var init, last := s[..|s| - 1], s[|s| - 1];
      var front := Insert(x, init);
      assert s == init + [last];
      assert Insert(x, s) == front + [last];
      InsertStable(x, init, k);
      WithDateSnoc(front, last, k);
      WithDateSnoc(init, last, k);
      // `last` is later than `x`, so at most one of them has key `k`
      if DateKey(x) == k {
        assert WithDate(front + [last], k) == WithDate(init, k) + [x];
      } else {
        assert WithDate(front + [last], k) == WithDate(s, k);
      }
    }
  }

  /**
   * Stability: for every date, the records carrying that date come out in
   * the order they went in.
   */
  lemma {:induction false} SortByDateStable(s: seq<Movement>, k: int)
    ensures WithDate(SortByDate(s), k) == WithDate(s, k)
  {
    if s != [] {
      var init := s[..|s| - 1];
      SortByDateStable(init, k);
      InsertStable(s[|s| - 1], SortByDate(init), k);
    }
  }

  /** Already sorted input is left as it is. */
  lemma {:induction false} SortOfSortedIsIdentity(s: seq<Movement>)
    requires SortedByDate(s)
    ensures SortByDate(s) == s
  {
    if s != [] {
      var init, last := s[..|s| - 1], s[|s| - 1];
      SortedPrefix(s);
      SortOfSortedIsIdentity(init);
      InsertNotEarlier(last, init);
      assert s == init + [last];
    }
  }

  lemma SortedPrefix(s: seq<Movement>)
    requires s != [] && SortedByDate(s)
    ensures SortedByDate(s[..|s| - 1])
    ensures |s| > 1 ==> DateKey(s[|s| - 2]) <= DateKey(s[|s| - 1])
  {
  }

  /** A record no earlier than the last one goes at the end. */
  lemma InsertNotEarlier(x: Movement, s: seq<Movement>)
    requires s == [] || DateKey(s[|s| - 1]) <= DateKey(x)
    ensures Insert(x, s) == s + [x]
  {
  }

  /** Sorting twice is sorting once. */
  lemma SortByDateIdempotent(s: seq<Movement>)
    ensures SortByDate(SortByDate(s)) == SortByDate(s)
  {
    SortByDateSorted(s);
    SortOfSortedIsIdentity(SortByDate(s));
  }

  /** The records of `s` with sort key `k` exist exactly when some record of `s` has that key. */
  lemma {:induction false} WithDateNonEmpty(s: seq<Movement>, k: int)
    ensures WithDate(s, k) != [] <==> exists i | 0 <= i < |s| :: DateKey(s[i]) == k
  {
    if s != [] {
      var init := s[..|s| - 1];
      WithDateNonEmpty(init, k);
      if exists i | 0 <= i < |init| :: DateKey(init[i]) == k {
        var i :| 0 <= i < |init| && DateKey(init[i]) == k;
        assert s[i] == init[i];
      }
      if exists i | 0 <= i < |s| :: DateKey(s[i]) == k {
        var i :| 0 <= i < |s| && DateKey(s[i]) == k;
        if i < |init| {
          assert init[i] == s[i];
        }
      }
    }
  }

  /** In sorted order the last record has the latest date. */
  lemma SortedLastIsLatest(s: seq<Movement>, k: int)
    requires s != [] && SortedByDate(s)
    requires WithDate(s, k) != []
    ensures k <= DateKey(s[|s| - 1])
  {
  }

  lemma LastDateNonEmpty(s: seq<Movement>)
    requires s != []
    ensures WithDate(s, DateKey(s[|s| - 1])) != []
  {
  }

  /**
   * Two sorted sequences that agree, date by date, on the records carrying
   * that date and their order are the same sequence.
   */
  lemma {:induction false} SortedUnique(a: seq<Movement>, b: seq<Movement>)
    requires SortedByDate(a) && SortedByDate(b)
    requires forall k :: WithDate(a, k) == WithDate(b, k)
    ensures a == b
    decreases |a| + |b|
  {
    if a == [] || b == [] {
      if a != [] {
        LastDateNonEmpty(a);
      }
      if b != [] {
        LastDateNonEmpty(b);
      }
    } else {
      var ai, la, bi, lb := a[..|a| - 1], a[|a| - 1], b[..|b| - 1], b[|b| - 1];
      var k := DateKey(la);
      assert WithDate(a, k) == WithDate(ai, k) + [la];
      assert WithDate(b, DateKey(lb)) == WithDate(bi, DateKey(lb)) + [lb];
      assert WithDate(b, k) == WithDate(a, k);
      assert WithDate(a, DateKey(lb)) == WithDate(b, DateKey(lb));
      SortedLastIsLatest(b, k);
      SortedLastIsLatest(a, DateKey(lb));
      assert DateKey(lb) == k;
      var w := WithDate(a, k);
      assert w[|w| - 1] == la;
      assert w == WithDate(bi, k) + [lb];
      assert la == lb;
      forall k' ensures WithDate(ai, k') == WithDate(bi, k') {
        assert WithDate(a, k') == WithDate(b, k');
        if k' == k {
          assert w[..|w| - 1] == WithDate(ai, k);
          assert w[..|w| - 1] == WithDate(bi, k);
        } else {
          assert WithDate(a, k') == WithDate(ai, k') + [];
          assert WithDate(a, k') == WithDate(ai, k');
          assert WithDate(b, k') == WithDate(bi, k') + [];
          assert WithDate(b, k') == WithDate(bi, k');
        }
      }
      SortedPrefix(a);
      SortedPrefix(b);
      SortedUnique(ai, bi);
      assert a == ai + [la] && b == bi + [lb];
    }
  }

  /**
   * Any stable sort by date gives the result of `SortByDate`: an output in
   * date order that keeps, for every date, the records of that date in their
   * input order is exactly `SortByDate` of the input.
   */
  lemma StableSortIsUnique(s: seq<Movement>, t: seq<Movement>)
    requires SortedByDate(t)
    requires forall k :: WithDate(t, k) == WithDate(s, k)
    ensures t == SortByDate(s)
  {
    SortByDateSorted(s);
    forall k ensures WithDate(t, k) == WithDate(SortByDate(s), k) {
      SortByDateStable(s, k);
    }
    SortedUnique(t, SortByDate(s));
  }

  /** Sequences holding the same records have the same keys. */
  lemma KeysOfPermutation(a: seq<Movement>, b: seq<Movement>)
    requires multiset(a) == multiset(b)
    ensures KeysOf(a) == KeysOf(b)
  {
    assert forall m :: m in a <==> m in multiset(a);
    assert forall m :: m in b <==> m in multiset(b);
  }

  /** Inserting a record with a new key keeps the keys distinct. */
  lemma {:induction false} InsertNoDuplicates(x: Movement, s: seq<Movement>)
    requires NoDuplicateKeys(s) && KeyOf(x) !in KeysOf(s)
    ensures NoDuplicateKeys(Insert(x, s))
  {
    if s == [] || DateKey(s[|s| - 1]) <= DateKey(x) {
      NoDuplicateKeysSnoc(s, x);
    } else {
      var init, last := s[..|s| - 1], s[|s| - 1];
      assert s == init + [last];
      NoDuplicateKeysSnoc(init, last);
      KeysOfSnoc(init, last);
      InsertNoDuplicates(x, init);
      var front := Insert(x, init);
      assert KeysOf(front) == KeysOf(init) + {KeyOf(x)} by {
        KeysOfPermutation(front, init + [x]);
        KeysOfSnoc(init, x);
      }
      NoDuplicateKeysSnoc(front, last);
    }
  }

  /** Sorting keeps the keys distinct. */
  lemma {:induction false} SortByDateNoDuplicates(s: seq<Movement>)
    requires NoDuplicateKeys(s)
    ensures NoDuplicateKeys(SortByDate(s))
  {
    if s != [] {
      var init, last := s[..|s| - 1], s[|s| - 1];
      assert s == init + [last];
      NoDuplicateKeysSnoc(init, last);
      SortByDateNoDuplicates(init);
      KeysOfPermutation(SortByDate(init), init);
      InsertNoDuplicates(last, SortByDate(init));
    }
  }

  /**
   * `process_data`: empty input comes back as it is; otherwise duplicates are
   * removed when asked, then the records are sorted by date when asked.
   */
  function Processed(data: seq<Movement>, removeDuplicates: bool, sortByDate: bool): (r: seq<Movement>)
    ensures multiset(r) <= multiset(data)
  {
    if data == [] then data
    else
      DedupSubMultiset(data);
      var unique := if removeDuplicates then Dedup(data) else data;
      if sortByDate then SortByDate(unique) else unique
  }

  /** The duplicate filter with a set of seen keys, then the optional sort. */
  method ProcessData(data: seq<Movement>, removeDuplicates: bool, sortByDate: bool) returns (result: seq<Movement>)
    ensures result == Processed(data, removeDuplicates, sortByDate)
  {
    if data == [] {
      return data;
    }
    result := data;
    if removeDuplicates {
      var seen: set<Key> := {};
      var uniqueData: seq<Movement> := [];
      for i := 0 to |data|
        invariant seen == KeysOf(data[..i])
        invariant uniqueData == Dedup(data[..i])
      {
        var movement := data[i];
        assert data[..i + 1] == data[..i] + [movement];
        KeysOfSnoc(data[..i], movement);
        var key := KeyOf(movement);
        if key !in seen {
          seen := seen + {key};
          uniqueData := uniqueData + [movement];
        }
      }
      assert data[..|data|] == data;
      result := uniqueData;
    }
    if sortByDate {
      result := SortByDate(result);
    }
  }

  /**
   * What processing guarantees: with both options off the input is returned
   * unchanged; removing duplicates leaves exactly one record per key of the
   * input, and sorting puts the records in date order, keeping the order of
   * records with the same date, without adding or losing any.
   */
  lemma ProcessedProperties(data: seq<Movement>, removeDuplicates: bool, sortByDate: bool)
    ensures var r := Processed(data, removeDuplicates, sortByDate);
      && (!removeDuplicates && !sortByDate ==> r == data)
      && (data == [] ==> r == [])
      && (removeDuplicates ==> NoDuplicateKeys(r) && KeysOf(r) == KeysOf(data))
      && (!removeDuplicates ==> multiset(r) == multiset(data))
      && (sortByDate ==> SortedByDate(r))
  {
    if data != [] {
      var unique := if removeDuplicates then Dedup(data) else data;
      if removeDuplicates {
        DedupNoDuplicates(data);
        DedupKeys(data);
        if sortByDate {
          SortByDateNoDuplicates(unique);
          KeysOfPermutation(SortByDate(unique), unique);
        }
      }
      if sortByDate {
        SortByDateSorted(unique);
      }
    }
  }

  /** With sorting on, the records of each date keep the order they have after duplicate removal. */
  lemma ProcessedKeepsSameDateOrder(data: seq<Movement>, removeDuplicates: bool, k: int)
    ensures WithDate(Processed(data, removeDuplicates, true), k) ==
            WithDate(if removeDuplicates then Dedup(data) else data, k)
  {
    SortByDateStable(if removeDuplicates then Dedup(data) else data, k);
  }
}
