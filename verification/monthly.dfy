/**
 * The per-month analysis of the processed records: records are grouped by
 * the (year, month) of `Data`, groups come out in ascending month order, and
 * each group carries the number of its records and the sum of their amounts
 * (in cents).
 */
module Monthly {
  import opened Wrappers
  import opened Records

  /** A (year, month) period. */
  type Month = (int, int)

  /** One row of the analysis: the period, its record count and its total in cents. */
  datatype MonthStat = MonthStat(year: int, month: int, count: nat, total: nat)

  /** The period of a record, from its parsed `Data`. */
  function MonthOf(m: Movement): Month {
    (m.date.year, m.date.month)
  }

  function PeriodOf(x: MonthStat): Month {
    (x.year, x.month)
  }

  /** Period order: by year, then by month. */
  predicate Earlier(a: Month, b: Month) {
    a.0 < b.0 || (a.0 == b.0 && a.1 < b.1)
  }

  /** Rows in strictly ascending period order, so no period appears twice. */
  predicate Ascending(g: seq<MonthStat>) {
    forall i, j | 0 <= i < j < |g| :: Earlier(PeriodOf(g[i]), PeriodOf(g[j]))
  }

  /** The number of records of `s` in period `p`. */
  function CountIn(s: seq<Movement>, p: Month): nat {
    if s == [] then 0
    else CountIn(s[..|s| - 1], p) + (if MonthOf(s[|s| - 1]) == p then 1 else 0)
  }

  /** The sum of the amounts of the records of `s` in period `p`. */
  function TotalIn(s: seq<Movement>, p: Month): nat {
    if s == [] then 0
    else TotalIn(s[..|s| - 1], p) + (if MonthOf(s[|s| - 1]) == p then s[|s| - 1].amount else 0)
  }

  lemma {:induction false} EmptyPeriodHasNoTotal(s: seq<Movement>, p: Month)
    requires CountIn(s, p) == 0
    ensures TotalIn(s, p) == 0
  {
    if s != [] {
      EmptyPeriodHasNoTotal(s[..|s| - 1], p);
    }
  }

  /** The sum of all amounts of `s`. */
  function TotalAmount(s: seq<Movement>): nat {
    if s == [] then 0 else TotalAmount(s[..|s| - 1]) + s[|s| - 1].amount
  }

  function SumCounts(g: seq<MonthStat>): nat {
    if g == [] then 0 else g[0].count + SumCounts(g[1..])
  }

  function SumTotals(g: seq<MonthStat>): nat {
    if g == [] then 0 else g[0].total + SumTotals(g[1..])
  }

  /** The row of period `p`, if any. */
  function Lookup(g: seq<MonthStat>, p: Month): Option<MonthStat> {
    if g == [] then None
    else if PeriodOf(g[0]) == p then Some(g[0])
    else Lookup(g[1..], p)
  }

  /** The row of period `p` once one more record of `amount` cents is counted in it. */
  function Bumped(row: Option<MonthStat>, p: Month, amount: nat): MonthStat {
    match row
    case None => MonthStat(p.0, p.1, 1, amount)
    case Some(x) => x.(count := x.count + 1, total := x.total + amount)
  }

  /**
   * Counts one record of `amount` cents in period `p`: its row is updated,
   * or a new row is inserted at its place in period order.
   */
  function AddRecord(g: seq<MonthStat>, p: Month, amount: nat): (r: seq<MonthStat>)
    ensures forall x <- r :: PeriodOf(x) == p || x in g
    ensures r != [] && (g == [] || PeriodOf(r[0]) == p || r[0] == g[0])
    ensures |g| <= |r| <= |g| + 1
  {
    if g == [] then [MonthStat(p.0, p.1, 1, amount)]
    else if PeriodOf(g[0]) == p then [Bumped(Some(g[0]), p, amount)] + g[1..]
    else if Earlier(p, PeriodOf(g[0])) then [MonthStat(p.0, p.1, 1, amount)] + g
    else [g[0]] + AddRecord(g[1..], p, amount)
  }

  /** The analysis rows of `s`: its records counted one by one. */
  function MonthlyStats(s: seq<Movement>): (g: seq<MonthStat>)
    ensures |g| <= |s|
    ensures g == [] <==> s == []
  {
    if s == [] then []
    else
      var last := s[|s| - 1];
      AddRecord(MonthlyStats(s[..|s| - 1]), MonthOf(last), last.amount)
  }

  lemma AscendingTail(g: seq<MonthStat>)
    requires g != [] && Ascending(g)
    ensures Ascending(g[1..])
    ensures forall x <- g[1..] :: Earlier(PeriodOf(g[0]), PeriodOf(x))
  {
  }

  lemma AscendingCons(x: MonthStat, g: seq<MonthStat>)
    requires Ascending(g)
    requires forall y <- g :: Earlier(PeriodOf(x), PeriodOf(y))
    ensures Ascending([x] + g)
  {
  }

  /** Counting a record keeps the rows in strictly ascending period order. */
  lemma {:induction false} AddRecordAscending(g: seq<MonthStat>, p: Month, amount: nat)
    requires Ascending(g)
    ensures Ascending(AddRecord(g, p, amount))
  {
    if g != [] {
      AscendingTail(g);
      var r := AddRecord(g, p, amount);
      if PeriodOf(g[0]) == p {
        AscendingCons(r[0], g[1..]);
      } else if Earlier(p, PeriodOf(g[0])) {
        AscendingCons(r[0], g);
      } else {
        var rest := AddRecord(g[1..], p, amount);
        AddRecordAscending(g[1..], p, amount);
        AscendingCons(g[0], rest);
      }
    }
  }

  /** In ascending rows, a period before the first row's has no row. */
  lemma {:induction false} LookupBeforeFirst(g: seq<MonthStat>, p: Month)
    requires g != [] && Ascending(g) && Earlier(p, PeriodOf(g[0]))
    ensures Lookup(g, p) == None
    decreases |g|
  {
    if |g| > 1 {
      AscendingTail(g);
      assert g[1..][0] == g[1];
      LookupBeforeFirst(g[1..], p);
    }
  }

  /** Counting a record in period `p` changes the row of `p` and no other. */
  lemma {:induction false} AddRecordLookup(g: seq<MonthStat>, p: Month, amount: nat, q: Month)
    requires Ascending(g)
    ensures Lookup(AddRecord(g, p, amount), q) ==
            if q == p then Some(Bumped(Lookup(g, p), p, amount)) else Lookup(g, q)
  {
    if g != [] {
      AscendingTail(g);
      var r := AddRecord(g, p, amount);
      if PeriodOf(g[0]) == p {
        assert r[1..] == g[1..];
      } else if Earlier(p, PeriodOf(g[0])) {
        LookupBeforeFirst(g, p);
        assert r[1..] == g;
      } else {
        assert r[1..] == AddRecord(g[1..], p, amount);
        AddRecordLookup(g[1..], p, amount, q);
      }
    }
  }

  /** Counting a record adds one to the counts and its amount to the totals. */
  lemma {:induction false} AddRecordSums(g: seq<MonthStat>, p: Month, amount: nat)
    ensures SumCounts(AddRecord(g, p, amount)) == SumCounts(g) + 1
    ensures SumTotals(AddRecord(g, p, amount)) == SumTotals(g) + amount
  {
    if g != [] {
      var r := AddRecord(g, p, amount);
      if PeriodOf(g[0]) == p {
        assert r[1..] == g[1..];
      } else if Earlier(p, PeriodOf(g[0])) {
        assert r[1..] == g;
      } else {
        assert r[1..] == AddRecord(g[1..], p, amount);
        AddRecordSums(g[1..], p, amount);
      }
    }
  }

  /** The rows come out in strictly ascending (year, month) order. */
  lemma {:induction false} MonthlyStatsAscending(s: seq<Movement>)
    ensures Ascending(MonthlyStats(s))
  {
    if s != [] {
      var last := s[|s| - 1];
      MonthlyStatsAscending(s[..|s| - 1]);
      AddRecordAscending(MonthlyStats(s[..|s| - 1]), MonthOf(last), last.amount);
    }
  }

  /**
   * Every period has a row exactly when some record falls in it, and that
   * row counts the records of the period and sums their amounts.
   */
  lemma {:induction false} MonthlyStatsLookup(s: seq<Movement>, q: Month)
    ensures Lookup(MonthlyStats(s), q) ==
            if CountIn(s, q) == 0 then None
            else Some(MonthStat(q.0, q.1, CountIn(s, q), TotalIn(s, q)))
  {
    if s != [] {
      var init, last := s[..|s| - 1], s[|s| - 1];
      var g, p := MonthlyStats(init), MonthOf(last);
      assert MonthlyStats(s) == AddRecord(g, p, last.amount);
      MonthlyStatsAscending(init);
      AddRecordLookup(g, p, last.amount, q);
      MonthlyStatsLookup(init, q);
      if q == p {
        assert CountIn(s, q) == CountIn(init, q) + 1;
        assert TotalIn(s, q) == TotalIn(init, q) + last.amount;
        if CountIn(init, q) == 0 {
          EmptyPeriodHasNoTotal(init, q);
          assert Bumped(Lookup(g, p), p, last.amount) == MonthStat(q.0, q.1, 1, last.amount);
        } else {
          var x := MonthStat(q.0, q.1, CountIn(init, q), TotalIn(init, q));
          assert Lookup(g, p) == Some(x);
          assert Bumped(Some(x), p, last.amount) == MonthStat(q.0, q.1, CountIn(s, q), TotalIn(s, q));
        }
      } else {
        assert CountIn(s, q) == CountIn(init, q);
        assert TotalIn(s, q) == TotalIn(init, q);
      }
    }
  }

  /** In ascending rows, every row is the one found for its period. */
  lemma {:induction false} LookupFindsMember(g: seq<MonthStat>, x: MonthStat)
    requires Ascending(g) && x in g
    ensures Lookup(g, PeriodOf(x)) == Some(x)
    decreases |g|
  {
    if g[0] != x {
      AscendingTail(g);
      assert x in g[1..];
      LookupFindsMember(g[1..], x);
    }
  }

  /**
   * Every row is a period with at least one record, its count is the number
   * of records in that period and its total the sum of their amounts.
   */
  lemma MonthlyStatsRows(s: seq<Movement>)
    ensures forall x <- MonthlyStats(s) ::
      && x.count == CountIn(s, PeriodOf(x)) > 0
      && x.total == TotalIn(s, PeriodOf(x))
  {
    var g := MonthlyStats(s);
    MonthlyStatsAscending(s);
    forall x <- g ensures x.count == CountIn(s, PeriodOf(x)) > 0 && x.total == TotalIn(s, PeriodOf(x)) {
      LookupFindsMember(g, x);
      MonthlyStatsLookup(s, PeriodOf(x));
    }
  }

  /** The counts add up to the number of records and the totals to the sum of all amounts. */
  lemma {:induction false} MonthlyStatsSums(s: seq<Movement>)
    ensures SumCounts(MonthlyStats(s)) == |s|
    ensures SumTotals(MonthlyStats(s)) == TotalAmount(s)
  {
    if s != [] {
      var last := s[|s| - 1];
      MonthlyStatsSums(s[..|s| - 1]);
      AddRecordSums(MonthlyStats(s[..|s| - 1]), MonthOf(last), last.amount);
    }
  }
}
