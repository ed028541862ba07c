/** The report numbering of pdfGen/orderfunction.py: a stored map from a date
    (`YYYYMMDD`) to the number of reports issued for it, and report ids of the
    form `YYYYMMDD-NNNN`. The count file is the field `stored`; the date, which
    the source takes from the clock plus three days, is a parameter. */
module OrderFunction {
  import opened Common

  /** The count recorded for a date, 0 for a date not yet seen. */
  function CountOf(counts: map<string, nat>, date: string): nat
  {
    if date in counts then counts[date] else 0
  }

  /** The map after one id has been issued for `date`. */
  function NextCounts(counts: map<string, nat>, date: string): map<string, nat>
  {
    counts[date := CountOf(counts, date) + 1]
  }

  /** pdfGen/orderfunction.py:39: the date, a dash and the count padded to four digits. */
  function OrderId(date: string, n: nat): string
  {
    date + "-" + PadNat(n, 4)
  }

  class OrderBook {
    /** The contents of the count file. */
    var stored: map<string, nat>

    /** No file yet: `load_order_count` returns `{}`. */
    constructor ()
      ensures stored == map[]
    {
      stored := map[];
    }

    /** pdfGen/orderfunction.py:20-40: load the counts, start the date at 0 when it
        is new, add one, save the whole map back, and format the id. */
    method GenerateOrderId(today: string) returns (id: string)
      modifies this
      ensures stored == NextCounts(old(stored), today)
      ensures id == OrderId(today, stored[today])
    {
      var orderCount := stored;
      if today !in orderCount {
        orderCount := orderCount[today := 0];
      }
      orderCount := orderCount[today := orderCount[today] + 1];
      stored := orderCount;
      id := today + "-" + PadNat(orderCount[today], 4);
    }
  }

  /** One call adds exactly one to the date's count, adds the date if it was
      missing, and leaves every other date's count as it was. */
  lemma NextCountsEffect(counts: map<string, nat>, date: string)
    ensures var next := NextCounts(counts, date);
      && next.Keys == counts.Keys + {date}
      && CountOf(next, date) == CountOf(counts, date) + 1
      && (forall other :: other != date ==> CountOf(next, other) == CountOf(counts, other))
  {
  }

  /** The first id of a new date ends in "-0001". */
  lemma FirstIdOfDay(counts: map<string, nat>, date: string)
    requires date !in counts
    ensures NextCounts(counts, date)[date] == 1
    ensures OrderId(date, NextCounts(counts, date)[date]) == date + "-0001"
  {
    assert NatToDigits(1) == "1";
    assert Zeros(3) == "000";
    assert PadNat(1, 4) == "0001";
  }

  /** The id starts with the date and a dash, and the rest is at least four
      decimal digits that read back as the count. */
  lemma OrderIdShape(date: string, n: nat)
    ensures var id := OrderId(date, n);
      && StartsWith(id, date + "-")
      && |id| >= |date| + 5
      && AllDigits(id[|date| + 1..])
      && DigitsValue(id[|date| + 1..]) == n
  {
    var id := OrderId(date, n);
    assert id[..|date| + 1] == date + "-";
    assert id[|date| + 1..] == PadNat(n, 4);
    PadNatRoundTrip(n, 4);
  }

  /** Ids are equal only for the same date and the same count: the padded count
      holds no dash, so the id's last dash marks where the date ends. */
  lemma OrderIdInjective(d1: string, n1: nat, d2: string, n2: nat)
    ensures OrderId(d1, n1) == OrderId(d2, n2) <==> d1 == d2 && n1 == n2
  {
    if OrderId(d1, n1) == OrderId(d2, n2) {
      if |d1| < |d2| {
        DashEndsDate(d1, n1, d2, n2);
      } else if |d2| < |d1| {
        DashEndsDate(d2, n2, d1, n1);
      }
      assert d1 == OrderId(d1, n1)[..|d1|];
      assert d2 == OrderId(d2, n2)[..|d2|];
      assert OrderId(d1, n1) == (d1 + "-") + PadNat(n1, 4);
      assert OrderId(d2, n2) == (d1 + "-") + PadNat(n2, 4);
      PrefixCancel(d1 + "-", PadNat(n1, 4), PadNat(n2, 4));
      if n1 != n2 {
        PadNatInjective(n1, n2, 4);
      }
    }
  }

  /** With a shorter date, the longer date's dash falls on a digit of the count. */
  lemma {:induction false} DashEndsDate(d1: string, n1: nat, d2: string, n2: nat)
    requires |d1| < |d2|
    ensures OrderId(d1, n1) != OrderId(d2, n2)
  {
    var id1 := OrderId(d1, n1);
    var id2 := OrderId(d2, n2);
    if |id1| == |id2| {
      var p1 := PadNat(n1, 4);
      assert id1 == d1 + "-" + p1;
      assert id1[|d2|] == p1[|d2| - |d1| - 1];
      assert IsDigit(id1[|d2|]);
      assert id2[|d2|] == '-';
    }
  }

  /** Two successive calls for the same date give strictly increasing counts and
      distinct ids. */
  lemma SuccessiveIdsDistinct(counts: map<string, nat>, date: string)
    ensures var first := NextCounts(counts, date);
      var second := NextCounts(first, date);
      && first[date] < second[date]
      && OrderId(date, first[date]) != OrderId(date, second[date])
  {
    var first := NextCounts(counts, date);
    var second := NextCounts(first, date);
    OrderIdInjective(date, first[date], date, second[date]);
  }

  /** The counts after `k` calls for one date. */
  function CallsFor(counts: map<string, nat>, date: string, k: nat): map<string, nat>
  {
    if k == 0 then counts else NextCounts(CallsFor(counts, date, k - 1), date)
  }

  /** After `k` calls the date's count has grown by exactly `k`, so the ids of calls
      `i` and `j` differ whenever `i != j`. */
  lemma {:induction false} CallsCount(counts: map<string, nat>, date: string, k: nat)
    ensures CountOf(CallsFor(counts, date, k), date) == CountOf(counts, date) + k
    decreases k
  {
    if k > 0 {
      CallsCount(counts, date, k - 1);
    }
  }

  lemma IdsOfDistinctCallsDiffer(counts: map<string, nat>, date: string, i: nat, j: nat)
    requires 1 <= i < j
    ensures OrderId(date, CallsFor(counts, date, i)[date]) != OrderId(date, CallsFor(counts, date, j)[date])
  {
    CallsCount(counts, date, i);
    CallsCount(counts, date, j);
    OrderIdInjective(date, CallsFor(counts, date, i)[date], date, CallsFor(counts, date, j)[date]);
  }
}
