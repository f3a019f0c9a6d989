/** The monthly revenue chart (src/components/RevenueChart.tsx): revenue per
    `YYYY-MM` key, the keys sorted as strings, one bar per key. */
module RevenueChart {

  import opened Wrappers
  import opened Calendar
  import opened Records
  import opened Text
  import Seqs

  /** `${getFullYear()}-${month padded to two digits}`; the year is not
      padded. */
  function MonthKey(d: Date): string
  {
    IntToString(d.year) + ("-" + PadStart(NatToString(d.month), 2, '0'))
  }

  /** One property of `monthlyTotals` (or one charge to it): a month key and
      an amount. */
  datatype Bucket = Bucket(key: string, total: real)

  function Keys(b: seq<Bucket>): (r: seq<string>)
    ensures |r| == |b| && forall i :: 0 <= i < |b| ==> r[i] == b[i].key
  {
    seq(|b|, i requires 0 <= i < |b| => b[i].key)
  }

  function TotalOf(b: Bucket): real
  {
    b.total
  }

  /** The entry's project exists and has a truthy (non-zero) hourly rate;
      other entries are skipped. */
  predicate Counts(e: TimeEntry, projects: seq<Project>)
  {
    FindProject(projects, e.projectId).Some? && FindProject(projects, e.projectId).value.hourlyRate != 0.0
  }

  /** What the `forEach` callback adds for one entry: nothing when it is
      skipped, otherwise `hours * hourly_rate` under the entry's month key. */
  function Charge(e: TimeEntry, projects: seq<Project>): (r: Option<Bucket>)
    ensures r.Some? <==> Counts(e, projects)
    ensures r.Some? ==> r.value.key == MonthKey(e.date)
    ensures r.Some? ==> var p := FindProject(projects, e.projectId);
      p.Some? && r.value.total == e.hours * p.value.hourlyRate
  {
    if Counts(e, projects) then
      Some(Bucket(MonthKey(e.date), e.hours * FindProject(projects, e.projectId).value.hourlyRate))
    else None
  }

  /** The callback as a value, so that every use names the same function. */
  function ChargeOf(projects: seq<Project>): TimeEntry -> Option<Bucket>
  {
    e => Charge(e, projects)
  }

  /** Element `x` adds to the bucket `key`. */
  predicate Adds<T>(charge: T -> Option<Bucket>, x: T, key: string)
  {
    charge(x).Some? && charge(x).value.key == key
  }

  /** Some element adds to the bucket `key`. */
  predicate Mentioned<T>(s: seq<T>, charge: T -> Option<Bucket>, key: string)
  {
    exists i :: 0 <= i < |s| && Adds(charge, s[i], key)
  }

  lemma MentionedSnoc<T>(s: seq<T>, charge: T -> Option<Bucket>, key: string)
    requires |s| > 0
    ensures Mentioned(s, charge, key) <==> Mentioned(s[..|s| - 1], charge, key) || Adds(charge, s[|s| - 1], key)
  {
    var n := |s| - 1;
    if Mentioned(s, charge, key) {
      var i :| 0 <= i < |s| && Adds(charge, s[i], key);
      if i < n {
        assert s[..n][i] == s[i];
      }
    }
    if Mentioned(s[..n], charge, key) {
      var i :| 0 <= i < n && Adds(charge, s[..n][i], key);
      assert s[..n][i] == s[i];
    }
  }

  /** Reference sum: the amounts the elements add under `key`. */
  function AmountUnder<T>(s: seq<T>, charge: T -> Option<Bucket>, key: string): real
  {
    if |s| == 0 then 0.0
    else AmountUnder(s[..|s| - 1], charge, key) + (if Adds(charge, s[|s| - 1], key) then charge(s[|s| - 1]).value.total else 0.0)
  }

  /** Reference sum: every amount the elements add. */
  function AmountCharged<T>(s: seq<T>, charge: T -> Option<Bucket>): real
  {
    if |s| == 0 then 0.0
    else AmountCharged(s[..|s| - 1], charge) + (if charge(s[|s| - 1]).Some? then charge(s[|s| - 1]).value.total else 0.0)
  }

  /** The revenue of the entries in the month `key`. */
  function KeyRevenue(entries: seq<TimeEntry>, projects: seq<Project>, key: string): real
  {
    AmountUnder(entries, ChargeOf(projects), key)
  }

  /** The revenue of every entry that counts. */
  function CountedRevenue(entries: seq<TimeEntry>, projects: seq<Project>): real
  {
    AmountCharged(entries, ChargeOf(projects))
  }

  /** `monthlyTotals[key] = (monthlyTotals[key] || 0) + amount`: an existing
      key keeps its place and grows; a new key is appended. */
  function AddTo(b: seq<Bucket>, key: string, amount: real): (r: seq<Bucket>)
    requires Seqs.Distinct(Keys(b))
    ensures Seqs.Distinct(Keys(r))
    ensures key in Keys(b) ==> Keys(r) == Keys(b)
    ensures key !in Keys(b) ==> Keys(r) == Keys(b) + [key] && r[|b|].total == amount
    ensures forall i :: 0 <= i < |b| ==> r[i].total == if b[i].key == key then b[i].total + amount else b[i].total
    ensures Seqs.Sum(r, TotalOf) == Seqs.Sum(b, TotalOf) + amount
  {
    if key in Keys(b) then
      var i := Seqs.IndexOf(Keys(b), key);
      var r := b[i := Bucket(key, b[i].total + amount)];
      assert Keys(r) == Keys(b);
      SumUpdate(b, i, Bucket(key, b[i].total + amount));
      r
    else
      var r := b + [Bucket(key, amount)];
      assert Keys(r) == Keys(b) + [key];
      Seqs.SumConcat(b, [Bucket(key, amount)], TotalOf);
      r
  }

  lemma {:induction false} SumUpdate(b: seq<Bucket>, i: nat, x: Bucket)
    requires i < |b|
    ensures Seqs.Sum(b[i := x], TotalOf) == Seqs.Sum(b, TotalOf) - b[i].total + x.total
  {
    if i > 0 {
      assert b[i := x][1..] == b[1..][i - 1 := x];
      SumUpdate(b[1..], i - 1, x);
    }
  }

  /** The `forEach`: keys are distinct and a key is present exactly when
      some element adds to it. What the buckets hold is stated below. */
  function Accumulate<T>(s: seq<T>, charge: T -> Option<Bucket>): (r: seq<Bucket>)
    ensures Seqs.Distinct(Keys(r))
    ensures forall key :: key in Keys(r) <==> Mentioned(s, charge, key)
    decreases |s|
  {
    if |s| == 0 then []
    else
      var n := |s| - 1;
      var prev := Accumulate(s[..n], charge);
      assert forall key :: Mentioned(s, charge, key) <==> Mentioned(s[..n], charge, key) || Adds(charge, s[n], key) by {
        forall key {
          MentionedSnoc(s, charge, key);
        }
      }
      if charge(s[n]).Some? then AddTo(prev, charge(s[n]).value.key, charge(s[n]).value.total)
      else prev
  }

  /** Each bucket holds the amount added under its key, and a key with no
      bucket has had nothing added. */
  lemma {:induction false} AccumulateTotals<T>(s: seq<T>, charge: T -> Option<Bucket>)
    ensures var r := Accumulate(s, charge);
      (forall i :: 0 <= i < |r| ==> r[i].total == AmountUnder(s, charge, r[i].key))
      && forall key :: key !in Keys(r) ==> AmountUnder(s, charge, key) == 0.0
    decreases |s|
  {
    if |s| > 0 {
      var n := |s| - 1;
      AccumulateTotals(s[..n], charge);
    }
  }

  /** The buckets together hold every amount added. */
  lemma {:induction false} AccumulateSum<T>(s: seq<T>, charge: T -> Option<Bucket>)
    ensures Seqs.Sum(Accumulate(s, charge), TotalOf) == AmountCharged(s, charge)
    decreases |s|
  {
    if |s| > 0 {
      AccumulateSum(s[..|s| - 1], charge);
    }
  }

  /** `monthlyTotals` after the `forEach` over the entries: one bucket per
      month that has a counted entry, holding that month's revenue, and
      together the revenue of every counted entry. */
  function MonthlyTotals(entries: seq<TimeEntry>, projects: seq<Project>): (r: seq<Bucket>)
    ensures Seqs.Distinct(Keys(r))
    ensures forall key :: key in Keys(r) <==> Mentioned(entries, ChargeOf(projects), key)
    ensures forall i :: 0 <= i < |r| ==> r[i].total == KeyRevenue(entries, projects, r[i].key)
    ensures forall key :: key !in Keys(r) ==> KeyRevenue(entries, projects, key) == 0.0
    ensures Seqs.Sum(r, TotalOf) == CountedRevenue(entries, projects)
  {
    AccumulateTotals(entries, ChargeOf(projects));
    AccumulateSum(entries, ChargeOf(projects));
    Accumulate(entries, ChargeOf(projects))
  }

  /** `Object.keys(monthlyTotals).sort()`. */
  function SortedKeys(entries: seq<TimeEntry>, projects: seq<Project>): (r: seq<string>)
    ensures StrictlySorted(r)
    ensures forall key :: key in r <==> Mentioned(entries, ChargeOf(projects), key)
  {
    var keys := Keys(MonthlyTotals(entries, projects));
    SortStrings(keys)
  }

  /** The total stored under a key. */
  function Lookup(b: seq<Bucket>, key: string): real
  {
    if |b| == 0 then 0.0 else if b[0].key == key then b[0].total else Lookup(b[1..], key)
  }

  lemma {:induction false} LookupFinds(b: seq<Bucket>, i: nat)
    requires Seqs.Distinct(Keys(b)) && i < |b|
    ensures Lookup(b, b[i].key) == b[i].total
  {
    if i > 0 {
      assert Keys(b[1..]) == Keys(b)[1..];
      LookupFinds(b[1..], i - 1);
    }
  }

  /** The chart's data: one bar per sorted key, holding that month's
      revenue. */
  function Bars(entries: seq<TimeEntry>, projects: seq<Project>): (r: seq<Bucket>)
    ensures |r| == |SortedKeys(entries, projects)|
    ensures forall i :: 0 <= i < |r| ==> r[i].key == SortedKeys(entries, projects)[i]
    ensures forall i :: 0 <= i < |r| ==> r[i].total == KeyRevenue(entries, projects, r[i].key)
  {
    var totals := MonthlyTotals(entries, projects);
    var keys := SortedKeys(entries, projects);
    var r := seq(|keys|, i requires 0 <= i < |keys| => Bucket(keys[i], Lookup(totals, keys[i])));
    assert forall i :: 0 <= i < |r| ==> r[i].total == KeyRevenue(entries, projects, r[i].key) by {
      forall i | 0 <= i < |r| ensures r[i].total == KeyRevenue(entries, projects, r[i].key) {
        var j := Seqs.IndexOf(Keys(totals), keys[i]);
        LookupFinds(totals, j);
      }
    }
    r
  }

  /** A four-digit year gives a four-character year part. */
  lemma FourDigitYear(y: int)
    requires 1000 <= y <= 9999
    ensures |IntToString(y)| == 4 && AllDigits(IntToString(y)) && ParseDigits(IntToString(y)) == y
  {
    DigitCount(y, 3);
    DigitCount(y, 4);
    ParseNatToString(y);
  }

  lemma MonthPart(m: int)
    requires 1 <= m <= 12
    ensures var s := PadStart(NatToString(m), 2, '0');
      |s| == 2 && AllDigits(s) && ParseDigits(s) == m
  {
    DigitCount(m, 2);
    PadDigitsRoundTrip(m, 2);
  }

  /** Year digits, a dash, month digits: with fixed widths, string order is
      numeric order on the year and then on the month. */
  lemma {:induction false} KeyOrder(ya: string, ma: string, yb: string, mb: string)
    requires |ya| == |yb| && |ma| == |mb|
    requires AllDigits(ya) && AllDigits(yb) && AllDigits(ma) && AllDigits(mb)
    ensures LexLess(ya + ("-" + ma), yb + ("-" + mb)) <==>
      (ParseDigits(ya) < ParseDigits(yb) || (ParseDigits(ya) == ParseDigits(yb) && ParseDigits(ma) < ParseDigits(mb)))
  {
    DigitOrder(ya, yb);
    DigitOrder(ma, mb);
    LexLessConcat(ya, "-" + ma, yb, "-" + mb);
    LexLessConcat("-", ma, "-", mb);
    LexLessIrreflexive("-");
  }

  /** For four-digit years, string order on month keys is chronological
      order on months. */
  lemma MonthKeyOrder(a: Date, b: Date)
    requires 1000 <= a.year <= 9999 && 1000 <= b.year <= 9999
    ensures LexLess(MonthKey(a), MonthKey(b)) <==> (a.year < b.year || (a.year == b.year && a.month < b.month))
  {
    var ya, yb := IntToString(a.year), IntToString(b.year);
    var ma, mb := PadStart(NatToString(a.month), 2, '0'), PadStart(NatToString(b.month), 2, '0');
    FourDigitYear(a.year);
    FourDigitYear(b.year);
    MonthPart(a.month);
    MonthPart(b.month);
    assert MonthKey(a) == ya + ("-" + ma);
    assert MonthKey(b) == yb + ("-" + mb);
    KeyOrder(ya, ma, yb, mb);
  }

  /** The bars run in calendar order: of two counted entries from different
      months with four-digit years, the earlier month's bar comes first. */
  lemma BarsAreChronological(entries: seq<TimeEntry>, projects: seq<Project>, i: nat, j: nat)
    requires i < |entries| && j < |entries|
    requires Counts(entries[i], projects) && Counts(entries[j], projects)
    requires 1000 <= entries[i].date.year <= 9999 && 1000 <= entries[j].date.year <= 9999
    requires entries[i].date.year < entries[j].date.year
      || (entries[i].date.year == entries[j].date.year && entries[i].date.month < entries[j].date.month)
    ensures var keys := SortedKeys(entries, projects);
      var a, b := MonthKey(entries[i].date), MonthKey(entries[j].date);
      a in keys && b in keys && Seqs.IndexOf(keys, a) < Seqs.IndexOf(keys, b)
  {
    var keys := SortedKeys(entries, projects);
    var a, b := MonthKey(entries[i].date), MonthKey(entries[j].date);
    assert Adds(ChargeOf(projects), entries[i], a) && Adds(ChargeOf(projects), entries[j], b);
    MonthKeyOrder(entries[i].date, entries[j].date);
    var p, q := Seqs.IndexOf(keys, a), Seqs.IndexOf(keys, b);
    if q < p {
      LexLessAsymmetric(a, b);
    } else if p == q {
      LexLessIrreflexive(a);
    }
  }
}
