/** The body of `processFile` in services/excelService.ts once the first sheet
    has been turned into rows: each row is classified into a (date, mode,
    loss) contribution, contributions are summed per `date-mode` key in a
    dictionary, each positive total is priced by the rule engine, and the
    priced entries are totalled and sorted by date. */
module Ingestion {
  import opened Outcomes
  import opened Types
  import opened JsText
  import opened ExcelService
  import opened ExcelDates
  import opened CashbackService
  import opened Calendar

  /** Why the promise rejects: `normalize` calls `toLowerCase` on a numeric
      game-name cell, which throws a TypeError. */
  datatype Error = GameNameIsNumber

  /** JavaScript truthiness of a cell (`0` and `""` are falsy). */
  predicate Truthy(c: Cell) {
    match c
    case Num(n) => n != 0.0
    case Str(s) => s != ""
  }

  /** The aggregation key text `${dateKey}-${mode}`. */
  function KeyText(date: string, mode: Mode): string {
    date + "-" + ModeName(mode)
  }

  /** A dictionary key, held as the (date, mode) pair its text is built
      from; KeyTextInjective shows that distinct pairs have distinct texts. */
  datatype BucketKey = BucketKey(date: string, mode: Mode)

  /** What one row adds to the aggregation: the loss under a date and a mode. */
  datatype Contribution = Contribution(date: string, mode: Mode, loss: real)
  {
    function Key(): BucketKey {
      BucketKey(date, mode)
    }
  }

  /** The date text of a row: the first matching date column, when its cell is truthy. */
  function RowDate(row: Row): Option<string> {
    match FindValue(row, DateKeys)
    case Some(c) => if Truthy(c) then Some(DateText(c)) else None
    case None => None
  }

  /** The game cell of a row, when it is present and truthy. */
  function RowGame(row: Row): Option<Cell> {
    match FindValue(row, GameKeys)
    case Some(c) => if Truthy(c) then Some(c) else None
    case None => None
  }

  /** The loss a row carries, from its bet and win columns or its GGR column. */
  function RowLoss(row: Row): real {
    DeriveLoss(FindValue(row, BetKeys), FindValue(row, WinKeys), FindValue(row, GgrKeys))
  }

  /** One pass of the row loop: a row without a truthy date or game is
      skipped, a numeric game name throws, an uncategorised game is skipped,
      and weekly and sports rows are dated by the Monday of their week. */
  function ClassifyRow(row: Row, platform: Platform): (r: Result<Option<Contribution>, Error>)
    ensures r.Err? <==> RowDate(row).Some? && RowGame(row).Some? && RowGame(row).value.Num?
    ensures r.Ok? && r.value.Some? ==> r.value.value.mode != Sports || platform == SevenK
    ensures r.Ok? && r.value.Some? ==> r.value.value.mode != Aviator || platform != SevenK
  {
    match RowDate(row)
    case None => Ok(None)
    case Some(dateStr) =>
      match RowGame(row)
      case None => Ok(None)
      case Some(game) =>
        match game
        case Num(_) => Err(GameNameIsNumber)
        case Str(name) =>
          match IdentifyCategory(name, platform)
          case None => Ok(None)
          case Some(mode) =>
            var dateKey := if mode == Weekly || mode == Sports then GetWeekStart(dateStr) else dateStr;
            Ok(Some(Contribution(dateKey, mode, RowLoss(row))))
  }

  /** A row is skipped exactly when its date or game is missing or falsy or
      its game falls in no category; a counted row carries its own loss under
      its category, dated by its week's Monday when weekly or sports. */
  lemma ClassifyRowOutcome(row: Row, platform: Platform)
    ensures ClassifyRow(row, platform) == Ok(None) <==>
              || RowDate(row).None? || RowGame(row).None?
              || (RowGame(row).value.Str? && IdentifyCategory(RowGame(row).value.s, platform).None?)
    ensures ClassifyRow(row, platform).Ok? && ClassifyRow(row, platform).value.Some? ==>
              var c := ClassifyRow(row, platform).value.value;
              && RowDate(row).Some? && RowGame(row).Some? && RowGame(row).value.Str?
              && IdentifyCategory(RowGame(row).value.s, platform) == Some(c.mode)
              && c.loss == RowLoss(row)
              && c.date == if c.mode == Weekly || c.mode == Sports then GetWeekStart(RowDate(row).value) else RowDate(row).value
  {
  }

  /** Rows of one week classified weekly (or sports) land on the same key. */
  lemma SameWeekSameBucket(r1: Row, r2: Row, platform: Platform, c1: Contribution, c2: Contribution, a: int, b: int)
    requires ClassifyRow(r1, platform) == Ok(Some(c1)) && ClassifyRow(r2, platform) == Ok(Some(c2))
    requires c1.mode == c2.mode && (c1.mode == Weekly || c1.mode == Sports)
    requires RowDate(r1).Some? && DateValue(RowDate(r1).value) == Some(a)
    requires RowDate(r2).Some? && DateValue(RowDate(r2).value) == Some(b)
    requires WeekStart(a) <= b <= WeekStart(a) + 6
    ensures c1.Key() == c2.Key()
  {
    SameWeekSameWeekStart(RowDate(r1).value, RowDate(r2).value, a, b);
  }

  /** The `-` just before the mode name in a key. */
  lemma DashBeforeMode(d: string, m: Mode)
    ensures var s := KeyText(d, m); s[|s| - |ModeName(m)| - 1] == '-'
  {
  }

  /** The mode name at the end of a key is lower-case letters. */
  lemma ModeLettersEndKey(d: string, m: Mode)
    ensures var s := KeyText(d, m);
            forall j :: |s| - |ModeName(m)| <= j < |s| ==> 'a' <= s[j] <= 'z'
  {
    var s := KeyText(d, m);
    var n := ModeName(m);
    assert forall j :: |s| - |n| <= j < |s| ==> s[j] == n[j - (|s| - |n|)];
  }

  /** A mode name ends the key, and mode names hold no `-`, so a key names one date and one mode. */
  lemma KeyTextInjective(d1: string, m1: Mode, d2: string, m2: Mode)
    requires KeyText(d1, m1) == KeyText(d2, m2)
    ensures d1 == d2 && m1 == m2
  {
    var n1, n2 := ModeName(m1), ModeName(m2);
    var s := KeyText(d1, m1);
    DashBeforeMode(d1, m1);
    DashBeforeMode(d2, m2);
    ModeLettersEndKey(d1, m1);
    ModeLettersEndKey(d2, m2);
    assert |n1| == |n2|;
    assert d1 == s[..|d1|] == d2;
    assert n1 == s[|d1| + 1..] == n2;
  }

  // ---------------------------------------------------------------------------
  // The row loop

  /** The contributions of the rows, in row order; the first numeric game
      name rejects the whole file. */
  function Contributions(rows: seq<Row>, classify: Row -> Result<Option<Contribution>, Error>): Result<seq<Contribution>, Error>
    decreases |rows|
  {
    if |rows| == 0 then Ok([])
    else Extend(Contributions(rows[..|rows| - 1], classify), classify(rows[|rows| - 1]))
  }

  /** The `forEach` callback of the row loop for one platform. */
  function RowClassifier(platform: Platform): Row -> Result<Option<Contribution>, Error> {
    row => ClassifyRow(row, platform)
  }

  /** The contributions so far, followed by the outcome of the next row. */
  function Extend(sofar: Result<seq<Contribution>, Error>, next: Result<Option<Contribution>, Error>): Result<seq<Contribution>, Error> {
    match sofar
    case Err(e) => Err(e)
    case Ok(cs) =>
      match next
      case Err(e) => Err(e)
      case Ok(None) => Ok(cs)
      case Ok(Some(c)) => Ok(cs + [c])
  }

  lemma ContributionsStep(rows: seq<Row>, classify: Row -> Result<Option<Contribution>, Error>, i: nat)
    requires i < |rows|
    ensures Contributions(rows[..i + 1], classify) == Extend(Contributions(rows[..i], classify), classify(rows[i]))
  {
    assert rows[..i + 1][..i] == rows[..i];
  }

  /** Once a row throws, the file is rejected whatever follows. */
  lemma {:induction false} ErrorAbsorbs(rows: seq<Row>, classify: Row -> Result<Option<Contribution>, Error>, i: nat)
    requires i <= |rows| && Contributions(rows[..i], classify).Err?
    ensures Contributions(rows, classify) == Contributions(rows[..i], classify)
    decreases |rows| - i
  {
    if i < |rows| {
      ContributionsStep(rows, classify, i);
      ErrorAbsorbs(rows, classify, i + 1);
    } else {
      assert rows[..i] == rows;
    }
  }

  /** The running total of one key (`{ date, mode, totalLoss }`). */
  datatype Aggregate = Aggregate(date: string, mode: Mode, totalLoss: real)
  {
    function Key(): BucketKey {
      BucketKey(date, mode)
    }
  }

  /** The `aggregations` dictionary: its keys in insertion order (the order
      `Object.values` lists them, none being an array index) and its entries. */
  datatype Aggregations = Aggregations(keys: seq<BucketKey>, table: map<BucketKey, Aggregate>)
  {
    /** Keys are listed once each, exactly the dictionary's keys, each under its own entry. */
    predicate Valid() {
      && (forall i, j :: 0 <= i < j < |keys| ==> keys[i] != keys[j])
      && (forall k :: k in keys ==> k in table)
      && (forall k :: k in table ==> k in keys)
      && (forall k :: k in table ==> table[k].Key() == k)
    }
  }

  /** One contribution added to the dictionary: a new key starts at zero, then the loss is added. */
  function Add(aggs: Aggregations, c: Contribution): Aggregations {
    var k := c.Key();
    var entry := if k in aggs.table then aggs.table[k] else Aggregate(c.date, c.mode, 0.0);
    Aggregations(if k in aggs.table then aggs.keys else aggs.keys + [k],
                 aggs.table[k := entry.(totalLoss := entry.totalLoss + c.loss)])
  }

  /** The dictionary after a sequence of contributions. */
  function AggregateAll(cs: seq<Contribution>): Aggregations
    decreases |cs|
  {
    if |cs| == 0 then Aggregations([], map[])
    else Add(AggregateAll(cs[..|cs| - 1]), cs[|cs| - 1])
  }

  lemma AggregateStep(cs: seq<Contribution>, c: Contribution)
    ensures AggregateAll(cs + [c]) == Add(AggregateAll(cs), c)
  {
    assert (cs + [c])[..|cs|] == cs;
  }

  /** The dictionary built by the row loop, or the rejection. */
  function Aggregated(rows: seq<Row>, classify: Row -> Result<Option<Contribution>, Error>): Result<Aggregations, Error> {
    match Contributions(rows, classify)
    case Err(e) => Err(e)
    case Ok(cs) => Ok(AggregateAll(cs))
  }

  /** Index of the first contribution under key `k`, or `|cs|` when there is none. */
  function FirstWith(cs: seq<Contribution>, k: BucketKey): (f: nat)
    ensures f <= |cs|
    ensures f < |cs| ==> cs[f].Key() == k
    ensures forall i :: 0 <= i < f ==> cs[i].Key() != k
    decreases |cs|
  {
    if |cs| == 0 then 0
    else
      var f := FirstWith(cs[..|cs| - 1], k);
      if f < |cs| - 1 then f
      else if cs[|cs| - 1].Key() == k then |cs| - 1
      else |cs|
  }

  /** Sum of the losses of the contributions under key `k`. */
  function LossFor(cs: seq<Contribution>, k: BucketKey): real
    decreases |cs|
  {
    if |cs| == 0 then 0.0
    else LossFor(cs[..|cs| - 1], k) + (if cs[|cs| - 1].Key() == k then cs[|cs| - 1].loss else 0.0)
  }

  /** Sum of the losses of all contributions. */
  function TotalLoss(cs: seq<Contribution>): real
    decreases |cs|
  {
    if |cs| == 0 then 0.0 else TotalLoss(cs[..|cs| - 1]) + cs[|cs| - 1].loss
  }

  /** Adding a contribution keeps the dictionary well formed. */
  lemma AddKeepsValid(aggs: Aggregations, c: Contribution)
    requires aggs.Valid()
    ensures Add(aggs, c).Valid()
  {
    var k := c.Key();
    if k !in aggs.table {
      var keys := aggs.keys + [k];
      forall i, j | 0 <= i < j < |keys|
        ensures keys[i] != keys[j]
      {
        if j == |aggs.keys| {
          assert aggs.keys[i] in aggs.table;
        }
      }
    }
  }

  /** The dictionary is well formed after any contributions. */
  lemma {:induction false} AggregatesValid(cs: seq<Contribution>)
    ensures AggregateAll(cs).Valid()
    decreases |cs|
  {
    if |cs| > 0 {
      AggregatesValid(cs[..|cs| - 1]);
      AddKeepsValid(AggregateAll(cs[..|cs| - 1]), cs[|cs| - 1]);
    }
  }

  /** A key is in the dictionary exactly when some contribution carries it. */
  lemma {:induction false} AggregateMembership(cs: seq<Contribution>, k: BucketKey)
    ensures k in AggregateAll(cs).table <==> FirstWith(cs, k) < |cs|
    decreases |cs|
  {
    if |cs| > 0 {
      AggregateMembership(cs[..|cs| - 1], k);
    }
  }

  /** A key no contribution carries has no loss. */
  lemma {:induction false} NoKeyNoLoss(cs: seq<Contribution>, k: BucketKey)
    requires FirstWith(cs, k) == |cs|
    ensures LossFor(cs, k) == 0.0
    decreases |cs|
  {
    if |cs| > 0 {
      NoKeyNoLoss(cs[..|cs| - 1], k);
    }
  }

  /** Each key's total is the sum of the losses of the rows under that key. */
  lemma {:induction false} AggregateTotals(cs: seq<Contribution>, k: BucketKey)
    requires k in AggregateAll(cs).table
    ensures AggregateAll(cs).table[k].totalLoss == LossFor(cs, k)
    decreases |cs|
  {
    var prefix := cs[..|cs| - 1];
    var c := cs[|cs| - 1];
    if k in AggregateAll(prefix).table {
      AggregateTotals(prefix, k);
    } else {
      AggregateMembership(prefix, k);
      NoKeyNoLoss(prefix, k);
    }
  }

  /** Each contribution's key holds that contribution's date and mode. */
  lemma ContributionEntry(cs: seq<Contribution>, i: nat)
    requires i < |cs|
    ensures cs[i].Key() in AggregateAll(cs).table
    ensures var a := AggregateAll(cs).table[cs[i].Key()]; a.date == cs[i].date && a.mode == cs[i].mode
  {
    var k := cs[i].Key();
    AggregateMembership(cs, k);
    AggregatesValid(cs);
  }

  /** Keys are listed in the order their first contributions came in. */
  lemma {:induction false} KeysInFirstSeenOrder(cs: seq<Contribution>)
    ensures forall i, j :: 0 <= i < j < |AggregateAll(cs).keys| ==>
              FirstWith(cs, AggregateAll(cs).keys[i]) < FirstWith(cs, AggregateAll(cs).keys[j])
    decreases |cs|
  {
    if |cs| > 0 {
      var prefix := cs[..|cs| - 1];
      var c := cs[|cs| - 1];
      var old_ := AggregateAll(prefix);
      KeysInFirstSeenOrder(prefix);
      AggregatesValid(prefix);
      forall key | key in old_.keys
        ensures FirstWith(cs, key) == FirstWith(prefix, key) < |prefix|
      {
        AggregateMembership(prefix, key);
      }
      var keys := AggregateAll(cs).keys;
      if c.Key() !in old_.table {
        AggregateMembership(prefix, c.Key());
        assert FirstWith(cs, c.Key()) == |prefix|;
        assert keys == old_.keys + [c.Key()];
        forall i, j | 0 <= i < j < |keys|
          ensures FirstWith(cs, keys[i]) < FirstWith(cs, keys[j])
        {
          assert keys[i] == old_.keys[i];
          if j < |old_.keys| {
            assert keys[j] == old_.keys[j];
          }
        }
      } else {
        assert keys == old_.keys;
        forall i, j | 0 <= i < j < |keys|
          ensures FirstWith(cs, keys[i]) < FirstWith(cs, keys[j])
        {
          assert keys[i] == old_.keys[i] && keys[j] == old_.keys[j];
          assert FirstWith(cs, keys[i]) == FirstWith(prefix, keys[i]);
          assert FirstWith(cs, keys[j]) == FirstWith(prefix, keys[j]);
        }
      }
    }
  }

  /** Sum of the totals listed under `keys` (a key without an entry adds nothing). */
  function SumOver(keys: seq<BucketKey>, table: map<BucketKey, Aggregate>): real
    decreases |keys|
  {
    if |keys| == 0 then 0.0
    else
      var k := keys[|keys| - 1];
      SumOver(keys[..|keys| - 1], table) + (if k in table then table[k].totalLoss else 0.0)
  }

  /** Entries not listed do not affect the sum. */
  lemma {:induction false} SumOverFrame(keys: seq<BucketKey>, table: map<BucketKey, Aggregate>, k: BucketKey, a: Aggregate)
    requires forall k' :: k' in keys ==> k' in table
    requires k !in keys
    ensures SumOver(keys, table[k := a]) == SumOver(keys, table)
    decreases |keys|
  {
    if |keys| > 0 {
      SumOverFrame(keys[..|keys| - 1], table, k, a);
    }
  }

  /** Raising one listed total by `x` raises the sum by `x`. */
  lemma {:induction false} SumOverBump(keys: seq<BucketKey>, table: map<BucketKey, Aggregate>, k: BucketKey, x: real)
    requires forall k' :: k' in keys ==> k' in table
    requires forall i, j :: 0 <= i < j < |keys| ==> keys[i] != keys[j]
    requires k in keys
    ensures SumOver(keys, table[k := table[k].(totalLoss := table[k].totalLoss + x)]) == SumOver(keys, table) + x
    decreases |keys|
  {
    var prefix := keys[..|keys| - 1];
    var a := table[k].(totalLoss := table[k].totalLoss + x);
    if keys[|keys| - 1] == k {
      assert k !in prefix;
      SumOverFrame(prefix, table, k, a);
    } else {
      SumOverBump(prefix, table, k, x);
    }
  }

  /** Adding a contribution raises the sum of the totals by its loss. */
  lemma AddConservesLoss(aggs: Aggregations, c: Contribution)
    requires aggs.Valid()
    ensures SumOver(Add(aggs, c).keys, Add(aggs, c).table) == SumOver(aggs.keys, aggs.table) + c.loss
  {
    var k := c.Key();
    if k in aggs.table {
      assert Add(aggs, c) == Aggregations(aggs.keys, aggs.table[k := aggs.table[k].(totalLoss := aggs.table[k].totalLoss + c.loss)]);
      SumOverBump(aggs.keys, aggs.table, k, c.loss);
    } else {
      var a := Aggregate(c.date, c.mode, 0.0 + c.loss);
      var keys := aggs.keys + [k];
      assert Add(aggs, c) == Aggregations(keys, aggs.table[k := a]);
      SumOverFrame(aggs.keys, aggs.table, k, a);
      assert keys[..|keys| - 1] == aggs.keys;
    }
  }

  /** The totals of the dictionary add up to the loss of all contributions. */
  lemma {:induction false} AggregateConservesLoss(cs: seq<Contribution>)
    ensures SumOver(AggregateAll(cs).keys, AggregateAll(cs).table) == TotalLoss(cs)
    decreases |cs|
  {
    if |cs| > 0 {
      var prefix := cs[..|cs| - 1];
      AggregateConservesLoss(prefix);
      AggregatesValid(prefix);
      AddConservesLoss(AggregateAll(prefix), cs[|cs| - 1]);
    }
  }

  /** One counted row: the entry under its key is created at zero when the
      key is new (and the key listed last), then the row's loss is added. */
  method AddContribution(keys: seq<BucketKey>, table: map<BucketKey, Aggregate>, c: Contribution)
    returns (keys': seq<BucketKey>, table': map<BucketKey, Aggregate>)
    ensures Aggregations(keys', table') == Add(Aggregations(keys, table), c)
  {
    var key := BucketKey(c.date, c.mode);
    var entry := if key in table then table[key] else Aggregate(c.date, c.mode, 0.0);
    keys' := keys;
    if key !in table {
      keys' := keys + [key];
    }
    table' := table[key := entry.(totalLoss := entry.totalLoss + c.loss)];
  }

  /** The row loop of `processFile`: each row is classified and its loss
      added under its key, a new key being listed when first seen. */
  method AggregateLosses(rows: seq<Row>, classify: Row -> Result<Option<Contribution>, Error>) returns (r: Result<Aggregations, Error>)
    ensures r == Aggregated(rows, classify)
  {
    var keys: seq<BucketKey> := [];
    var table: map<BucketKey, Aggregate> := map[];
    ghost var cs: seq<Contribution> := [];
    var i := 0;
    while i < |rows|
      invariant 0 <= i <= |rows|
      invariant Contributions(rows[..i], classify) == Ok(cs)
      invariant Aggregations(keys, table) == AggregateAll(cs)
    {
      ContributionsStep(rows, classify, i);
      var classified := classify(rows[i]);
      match classified {
        case Err(e) =>
          ErrorAbsorbs(rows, classify, i + 1);
          return Err(e);
        case Ok(None) =>
        case Ok(Some(c)) =>
          keys, table := AddContribution(keys, table, c);
          AggregateStep(cs, c);
          cs := cs + [c];
      }
      i := i + 1;
    }
    assert rows[..i] == rows;
    r := Ok(Aggregations(keys, table));
  }

  /** Whether the rows contain one whose callback throws. */
  lemma {:induction false} RejectedIffSomeRowThrows(rows: seq<Row>, classify: Row -> Result<Option<Contribution>, Error>)
    ensures Contributions(rows, classify).Err? <==> exists i :: 0 <= i < |rows| && classify(rows[i]).Err?
    decreases |rows|
  {
    if |rows| > 0 {
      var prefix := rows[..|rows| - 1];
      RejectedIffSomeRowThrows(prefix, classify);
      if Contributions(prefix, classify).Err? {
        var i :| 0 <= i < |prefix| && classify(prefix[i]).Err?;
        assert rows[i] == prefix[i];
      } else {
        forall i | 0 <= i < |prefix|
          ensures !classify(rows[i]).Err?
        {
          assert rows[i] == prefix[i];
        }
      }
    }
  }

  // ---------------------------------------------------------------------------
  // Pricing the totals

  /** The body of the pricing loop for one total: a positive loss is priced
      by the rule engine, and a positive payout gives the total its line. */
  function Price(a: Aggregate, platform: Platform): Option<ProcessedEntry> {
    if a.totalLoss > 0.0 then
      var payout := CalculateCashback(a.totalLoss, a.mode, platform);
      if payout.cashbackAmount > 0.0 then
        Some(ProcessedEntry(a.date, a.mode, a.totalLoss, payout.cashbackAmount, payout.appliedPercent))
      else None
    else None
  }

  /** The pricing of one platform, as the loop applies it. */
  function Pricer(platform: Platform): Aggregate -> Option<ProcessedEntry> {
    a => Price(a, platform)
  }

  /** The report lines of the totals listed under `keys`, in that order. */
  function Entries(keys: seq<BucketKey>, table: map<BucketKey, Aggregate>, price: Aggregate -> Option<ProcessedEntry>): seq<ProcessedEntry>
    requires forall k :: k in keys ==> k in table
    decreases |keys|
  {
    if |keys| == 0 then []
    else
      var line := price(table[keys[|keys| - 1]]);
      Entries(keys[..|keys| - 1], table, price) + (if line.Some? then [line.value] else [])
  }

  /** Sum of the cashback of the lines (`totalCashback`). */
  function SumCashback(es: seq<ProcessedEntry>): real
    decreases |es|
  {
    if |es| == 0 then 0.0 else SumCashback(es[..|es| - 1]) + es[|es| - 1].cashback
  }

  /** Cashback of the lines per mode (`detailsByMode`). */
  function Totals(es: seq<ProcessedEntry>): ModeTotals
    decreases |es|
  {
    if |es| == 0 then ModeTotals(0.0, 0.0, 0.0, 0.0)
    else Totals(es[..|es| - 1]).Add(es[|es| - 1].mode, es[|es| - 1].cashback)
  }

  /** A line as the rule engine prices its loss, with a positive loss and payout. */
  predicate PaidLine(e: ProcessedEntry, platform: Platform) {
    var payout := CalculateCashback(e.loss, e.mode, platform);
    e.loss > 0.0 && e.cashback > 0.0 && e.cashback == payout.cashbackAmount && e.percent == payout.appliedPercent
  }

  /** A priced total's line carries the total's date, mode and loss and is paid
      as the rule engine prices that loss; a total without a line has no
      positive loss or no positive payout. */
  lemma PriceIsPaid(a: Aggregate, platform: Platform)
    ensures Price(a, platform).Some? ==>
              && PaidLine(Price(a, platform).value, platform)
              && Price(a, platform).value.date == a.date
              && Price(a, platform).value.mode == a.mode
              && Price(a, platform).value.loss == a.totalLoss
    ensures Price(a, platform).None? <==>
              a.totalLoss <= 0.0 || CalculateCashback(a.totalLoss, a.mode, platform).cashbackAmount <= 0.0
  {
  }

  /** Every line has a positive loss and the payout the rule engine gives it. */
  lemma {:induction false} EntriesArePaid(keys: seq<BucketKey>, table: map<BucketKey, Aggregate>, platform: Platform)
    requires forall k :: k in keys ==> k in table
    ensures forall i :: 0 <= i < |Entries(keys, table, Pricer(platform))| ==> PaidLine(Entries(keys, table, Pricer(platform))[i], platform)
    decreases |keys|
  {
    if |keys| > 0 {
      var prefix := keys[..|keys| - 1];
      var a := table[keys[|keys| - 1]];
      var before := Entries(prefix, table, Pricer(platform));
      var es := Entries(keys, table, Pricer(platform));
      EntriesArePaid(prefix, table, platform);
      PriceIsPaid(a, platform);
      assert Pricer(platform)(a) == Price(a, platform);
      forall i | 0 <= i < |es|
        ensures PaidLine(es[i], platform)
      {
        if i < |before| {
          assert es[i] == before[i];
        }
      }
    }
  }

  /** Every total that the pricing gives a line has its line in the report. */
  lemma {:induction false} PricedTotalsListed(keys: seq<BucketKey>, table: map<BucketKey, Aggregate>, price: Aggregate -> Option<ProcessedEntry>, i: nat)
    requires forall k :: k in keys ==> k in table
    requires i < |keys| && price(table[keys[i]]).Some?
    ensures price(table[keys[i]]).value in Entries(keys, table, price)
    decreases |keys|
  {
    var prefix := keys[..|keys| - 1];
    if i < |prefix| {
      assert keys[i] == prefix[i];
      PricedTotalsListed(prefix, table, price, i);
    }
  }

  /** The total cashback is the sum of the four per-mode totals. */
  lemma {:induction false} TotalIsSumOfModes(es: seq<ProcessedEntry>)
    ensures var t := Totals(es); SumCashback(es) == t.weekly + t.daily + t.sports + t.aviator
    decreases |es|
  {
    if |es| > 0 {
      TotalIsSumOfModes(es[..|es| - 1]);
    }
  }

  lemma EntriesStep(keys: seq<BucketKey>, table: map<BucketKey, Aggregate>, price: Aggregate -> Option<ProcessedEntry>, i: nat)
    requires forall k :: k in keys ==> k in table
    requires i < |keys|
    ensures Entries(keys[..i + 1], table, price) ==
            Entries(keys[..i], table, price) + (if price(table[keys[i]]).Some? then [price(table[keys[i]]).value] else [])
  {
    assert keys[..i + 1][..i] == keys[..i];
  }

  /** The pricing loop of `processFile`, for the pricing `price` of one
      total: each line is pushed and its cashback added to its mode's total
      and to the overall total. */
  method BuildReport(aggs: Aggregations, price: Aggregate -> Option<ProcessedEntry>)
    returns (results: seq<ProcessedEntry>, detailsByMode: ModeTotals, totalCashback: real)
    requires aggs.Valid()
    ensures results == Entries(aggs.keys, aggs.table, price)
    ensures detailsByMode == Totals(results) && totalCashback == SumCashback(results)
  {
    results := [];
    detailsByMode := ModeTotals(0.0, 0.0, 0.0, 0.0);
    totalCashback := 0.0;
    var i := 0;
    while i < |aggs.keys|
      invariant 0 <= i <= |aggs.keys|
      invariant results == Entries(aggs.keys[..i], aggs.table, price)
      invariant detailsByMode == Totals(results) && totalCashback == SumCashback(results)
    {
      EntriesStep(aggs.keys, aggs.table, price, i);
      var line := price(aggs.table[aggs.keys[i]]);
      match line {
        case Some(l) =>
          assert (results + [l])[..|results|] == results;
          results := results + [l];
          detailsByMode := detailsByMode.Add(l.mode, l.cashback);
          totalCashback := totalCashback + l.cashback;
        case None =>
      }
      i := i + 1;
    }
    assert aggs.keys[..i] == aggs.keys;
  }

  // ---------------------------------------------------------------------------
  // Sorting the lines by date

  /** The comparator's reading of a line's date: `new Date(y, m - 1, d)`, or
      `None` where the time value is NaN. */
  function EntryDay(e: ProcessedEntry): Option<int> {
    DateValue(e.date)
  }

  /** The comparator is positive: both dates are readable and `a`'s is later.
      A NaN difference counts as 0, so unreadable dates never move. */
  predicate Later(day: ProcessedEntry -> Option<int>, a: ProcessedEntry, b: ProcessedEntry) {
    day(a).Some? && day(b).Some? && day(a).value > day(b).value
  }

  /** `e` inserted into `s` from the right, passing only lines that are later than it. */
  function Insert(s: seq<ProcessedEntry>, e: ProcessedEntry, day: ProcessedEntry -> Option<int>): seq<ProcessedEntry>
    decreases |s|
  {
    if |s| == 0 then [e]
    else if Later(day, s[|s| - 1], e) then Insert(s[..|s| - 1], e, day) + [s[|s| - 1]]
    else s + [e]
  }

  /** The lines sorted by date, stably: a line only moves before a strictly later one. */
  function DateSorted(s: seq<ProcessedEntry>, day: ProcessedEntry -> Option<int>): seq<ProcessedEntry>
    decreases |s|
  {
    if |s| == 0 then [] else Insert(DateSorted(s[..|s| - 1], day), s[|s| - 1], day)
  }

  /** Every line's date is readable. */
  predicate AllDated(s: seq<ProcessedEntry>, day: ProcessedEntry -> Option<int>) {
    forall i :: 0 <= i < |s| ==> day(s[i]).Some?
  }

  /** Readable dates never decrease along the lines. */
  predicate InDateOrder(s: seq<ProcessedEntry>, day: ProcessedEntry -> Option<int>) {
    forall i, j :: 0 <= i < j < |s| && day(s[i]).Some? && day(s[j]).Some? ==> day(s[i]).value <= day(s[j]).value
  }

  lemma {:induction false} InsertPermutes(s: seq<ProcessedEntry>, e: ProcessedEntry, day: ProcessedEntry -> Option<int>)
    ensures multiset(Insert(s, e, day)) == multiset(s) + multiset{e}
    decreases |s|
  {
    if |s| > 0 && Later(day, s[|s| - 1], e) {
      var prefix := s[..|s| - 1];
      InsertPermutes(prefix, e, day);
      assert s == prefix + [s[|s| - 1]];
    }
  }

  /** Sorting only reorders the lines. */
  lemma {:induction false} DateSortedPermutes(s: seq<ProcessedEntry>, day: ProcessedEntry -> Option<int>)
    ensures multiset(DateSorted(s, day)) == multiset(s)
    decreases |s|
  {
    if |s| > 0 {
      var prefix := s[..|s| - 1];
      DateSortedPermutes(prefix, day);
      InsertPermutes(DateSorted(prefix, day), s[|s| - 1], day);
      assert s == prefix + [s[|s| - 1]];
    }
  }

  /** Inserting a dated line into dated lines in date order keeps them in date order. */
  lemma {:induction false} InsertKeepsOrder(s: seq<ProcessedEntry>, e: ProcessedEntry, day: ProcessedEntry -> Option<int>)
    requires AllDated(s, day) && day(e).Some? && InDateOrder(s, day)
    ensures AllDated(Insert(s, e, day), day) && InDateOrder(Insert(s, e, day), day)
    ensures |Insert(s, e, day)| > 0 && day(Insert(s, e, day)[|Insert(s, e, day)| - 1]).Some?
    ensures var r := Insert(s, e, day);
            |s| > 0 ==> day(r[|r| - 1]).value == if day(e).value < day(s[|s| - 1]).value then day(s[|s| - 1]).value else day(e).value
    decreases |s|
  {
    if |s| > 0 && Later(day, s[|s| - 1], e) {
      var prefix := s[..|s| - 1];
      var last := s[|s| - 1];
      InsertKeepsOrder(prefix, e, day);
      var mid := Insert(prefix, e, day);
      var r := mid + [last];
      assert forall i :: 0 <= i < |mid| ==> r[i] == mid[i];
      forall i | 0 <= i < |mid|
        ensures day(mid[i]).value <= day(last).value
      {
        var m := InsertMember(prefix, e, day, i);
        if m < |prefix| {
          assert prefix[m] == s[m];
        }
      }
    }
  }

  /** Each line of an insertion is the inserted line or one of the original lines. */
  lemma {:induction false} InsertMember(s: seq<ProcessedEntry>, e: ProcessedEntry, day: ProcessedEntry -> Option<int>, i: nat)
    returns (m: nat)
    requires i < |Insert(s, e, day)|
    ensures m <= |s|
    ensures m < |s| ==> Insert(s, e, day)[i] == s[m]
    ensures m == |s| ==> Insert(s, e, day)[i] == e
    decreases |s|
  {
    InsertPermutes(s, e, day);
    var x := Insert(s, e, day)[i];
    assert x in multiset(Insert(s, e, day));
    if x == e {
      m := |s|;
    } else {
      assert x in multiset(s);
      m :| 0 <= m < |s| && s[m] == x;
    }
  }

  /** With every date readable, the sorted lines are in date order. */
  lemma {:induction false} DateSortedInOrder(s: seq<ProcessedEntry>, day: ProcessedEntry -> Option<int>)
    requires AllDated(s, day)
    ensures AllDated(DateSorted(s, day), day) && InDateOrder(DateSorted(s, day), day)
    decreases |s|
  {
    if |s| > 0 {
      var prefix := s[..|s| - 1];
      assert forall i :: 0 <= i < |prefix| ==> prefix[i] == s[i];
      DateSortedInOrder(prefix, day);
      InsertKeepsOrder(DateSorted(prefix, day), s[|s| - 1], day);
    }
  }

  /** Inserting a line adds its cashback to the sum and to its mode's total. */
  lemma {:induction false} InsertKeepsSum(s: seq<ProcessedEntry>, e: ProcessedEntry, day: ProcessedEntry -> Option<int>)
    ensures SumCashback(Insert(s, e, day)) == SumCashback(s) + e.cashback
    decreases |s|
  {
    if |s| > 0 && Later(day, s[|s| - 1], e) {
      var prefix := s[..|s| - 1];
      var mid := Insert(prefix, e, day);
      InsertKeepsSum(prefix, e, day);
      assert (mid + [s[|s| - 1]])[..|mid|] == mid;
    } else if |s| > 0 {
      assert (s + [e])[..|s|] == s;
    }
  }

  /** Adding two amounts to the per-mode totals in either order gives the same totals. */
  lemma AddCommutes(t: ModeTotals, m1: Mode, a1: real, m2: Mode, a2: real)
    ensures t.Add(m1, a1).Add(m2, a2) == t.Add(m2, a2).Add(m1, a1)
  {
  }

  lemma {:induction false} InsertKeepsTotals(s: seq<ProcessedEntry>, e: ProcessedEntry, day: ProcessedEntry -> Option<int>)
    ensures Totals(Insert(s, e, day)) == Totals(s).Add(e.mode, e.cashback)
    decreases |s|
  {
    if |s| > 0 && Later(day, s[|s| - 1], e) {
      var prefix := s[..|s| - 1];
      var last := s[|s| - 1];
      var mid := Insert(prefix, e, day);
      InsertKeepsTotals(prefix, e, day);
      assert (mid + [last])[..|mid|] == mid;
      assert Insert(s, e, day) == mid + [last];
      AddCommutes(Totals(prefix), e.mode, e.cashback, last.mode, last.cashback);
    } else if |s| > 0 {
      assert (s + [e])[..|s|] == s;
    }
  }

  /** Sorting changes neither the total cashback nor the per-mode totals. */
  lemma {:induction false} DateSortedKeepsSums(s: seq<ProcessedEntry>, day: ProcessedEntry -> Option<int>)
    ensures SumCashback(DateSorted(s, day)) == SumCashback(s)
    ensures Totals(DateSorted(s, day)) == Totals(s)
    decreases |s|
  {
    if |s| > 0 {
      var prefix := s[..|s| - 1];
      DateSortedKeepsSums(prefix, day);
      InsertKeepsSum(DateSorted(prefix, day), s[|s| - 1], day);
      InsertKeepsTotals(DateSorted(prefix, day), s[|s| - 1], day);
    }
  }

  /** The lines whose date reads as `d`, in their order in `s`. */
  function WithDay(s: seq<ProcessedEntry>, day: ProcessedEntry -> Option<int>, d: Option<int>): seq<ProcessedEntry>
    decreases |s|
  {
    if |s| == 0 then []
    else WithDay(s[..|s| - 1], day, d) + (if day(s[|s| - 1]) == d then [s[|s| - 1]] else [])
  }

  /** Inserting a line appends it to the lines of its own date and leaves the
      lines of every other date as they were: it only passes lines of other dates. */
  lemma {:induction false} InsertStable(s: seq<ProcessedEntry>, e: ProcessedEntry, day: ProcessedEntry -> Option<int>, d: Option<int>)
    ensures WithDay(Insert(s, e, day), day, d) == WithDay(s, day, d) + (if day(e) == d then [e] else [])
    decreases |s|
  {
    if |s| == 0 {
      assert [e][..0] == [];
    } else if Later(day, s[|s| - 1], e) {
      var prefix := s[..|s| - 1];
      var last := s[|s| - 1];
      var mid := Insert(prefix, e, day);
      InsertStable(prefix, e, day, d);
      assert (mid + [last])[..|mid|] == mid;
      assert day(last) != day(e);
    } else {
      assert (s + [e])[..|s|] == s;
    }
  }

  /** The sort is stable: for every date, and for the unreadable dates, the
      lines of that date keep their relative order. */
  lemma {:induction false} DateSortedStable(s: seq<ProcessedEntry>, day: ProcessedEntry -> Option<int>, d: Option<int>)
    ensures WithDay(DateSorted(s, day), day, d) == WithDay(s, day, d)
    decreases |s|
  {
    if |s| > 0 {
      var prefix := s[..|s| - 1];
      DateSortedStable(prefix, day, d);
      InsertStable(DateSorted(prefix, day), s[|s| - 1], day, d);
    }
  }

  /** One step of the insertion: `e` moves left past a later line. */
  lemma InsertShift(sorted: seq<ProcessedEntry>, e: ProcessedEntry, day: ProcessedEntry -> Option<int>, j: nat)
    requires 0 < j <= |sorted| && Later(day, sorted[j - 1], e)
    ensures Insert(sorted[..j], e, day) + sorted[j..] == Insert(sorted[..j - 1], e, day) + sorted[j - 1..]
  {
    assert sorted[..j][..j - 1] == sorted[..j - 1];
    assert sorted[j - 1..] == [sorted[j - 1]] + sorted[j..];
  }

  /** The insertion stops before a line that is not later than `e`. */
  lemma InsertStop(sorted: seq<ProcessedEntry>, e: ProcessedEntry, day: ProcessedEntry -> Option<int>, j: nat)
    requires j <= |sorted| && (j == 0 || !Later(day, sorted[j - 1], e))
    ensures Insert(sorted[..j], e, day) == sorted[..j] + [e]
  {
  }

  /** Moves `a[i]` left past the later lines before it: with `a[..i]`
      sorted, `a[..i + 1]` becomes the insertion of `a[i]` into it. */
  method InsertInPlace(a: array<ProcessedEntry>, i: int, day: ProcessedEntry -> Option<int>)
    requires 0 <= i < a.Length
    modifies a
    ensures a[..i + 1] == Insert(old(a[..i]), old(a[i]), day)
    ensures a[i + 1..] == old(a[i + 1..])
  {
    ghost var sorted := a[..i];
    ghost var rest := a[i + 1..];
    var e := a[i];
    var j := i;
    while j > 0 && Later(day, a[j - 1], e)
      invariant 0 <= j <= i
      invariant a[..j] == sorted[..j]
      invariant a[j + 1..i + 1] == sorted[j..]
      invariant a[i + 1..] == rest
      invariant Insert(sorted, e, day) == Insert(sorted[..j], e, day) + sorted[j..]
    {
      InsertShift(sorted, e, day, j);
      a[j] := a[j - 1];
      j := j - 1;
    }
    InsertStop(sorted, e, day, j);
    a[j] := e;
    assert a[..i + 1] == sorted[..j] + [e] + sorted[j..];
  }

  /** `results.sort` with the date comparator, as a stable insertion sort in place. */
  method SortByDate(a: array<ProcessedEntry>, day: ProcessedEntry -> Option<int>)
    modifies a
    ensures a[..] == DateSorted(old(a[..]), day)
    ensures forall d :: WithDay(a[..], day, d) == WithDay(old(a[..]), day, d)
  {
    ghost var input := a[..];
    var i := 0;
    while i < a.Length
      invariant 0 <= i <= a.Length
      invariant a[..i] == DateSorted(input[..i], day)
      invariant a[i..] == input[i..]
    {
      assert a[i] == input[i];
      assert input[..i + 1][..i] == input[..i];
      InsertInPlace(a, i, day);
      i := i + 1;
    }
    assert a[..] == a[..i] && input[..i] == input;
    forall d {
      DateSortedStable(input, day, d);
    }
  }

  // ---------------------------------------------------------------------------
  // The whole file

  /** The report of accepted contributions, for the pricing `price` of one
      total and the comparator's reading `day` of a line's date: the lines
      sorted by date, the total cashback and the cashback per mode. */
  function Summarize(cs: seq<Contribution>, price: Aggregate -> Option<ProcessedEntry>, day: ProcessedEntry -> Option<int>): BatchReport {
    AggregatesValid(cs);
    var aggs := AggregateAll(cs);
    var es := Entries(aggs.keys, aggs.table, price);
    BatchReport(DateSorted(es, day), SumCashback(es), Totals(es))
  }

  /** What `processFile` resolves with, or the rejection. */
  function Report(rows: seq<Row>, platform: Platform): Result<BatchReport, Error> {
    match Contributions(rows, RowClassifier(platform))
    case Err(e) => Err(e)
    case Ok(cs) => Ok(Summarize(cs, Pricer(platform), EntryDay))
  }

  /** The `onload` body of `processFile` after the sheet is read into rows. */
  method ProcessFile(rows: seq<Row>, platform: Platform) returns (r: Result<BatchReport, Error>)
    ensures r == Report(rows, platform)
  {
    ghost var contributions := Contributions(rows, RowClassifier(platform));
    var aggregated := AggregateLosses(rows, RowClassifier(platform));
    match aggregated {
      case Err(e) =>
        r := Err(e);
      case Ok(aggs) =>
        AggregatesValid(contributions.value);
        var results, detailsByMode, totalCashback := BuildReport(aggs, Pricer(platform));
        var lines := new ProcessedEntry[|results|](i requires 0 <= i < |results| => results[i]);
        assert lines[..] == results;
        SortByDate(lines, EntryDay);
        r := Ok(BatchReport(lines[..], totalCashback, detailsByMode));
    }
  }

  /** The total is the sum of the summary's lines and of the four per-mode
      totals, and each mode's total sums the summary lines of that mode. */
  lemma SummaryTotals(cs: seq<Contribution>, price: Aggregate -> Option<ProcessedEntry>, day: ProcessedEntry -> Option<int>)
    ensures var b := Summarize(cs, price, day);
            && b.totalCashback == SumCashback(b.summary)
            && b.detailsByMode == Totals(b.summary)
            && b.totalCashback == b.detailsByMode.weekly + b.detailsByMode.daily + b.detailsByMode.sports + b.detailsByMode.aviator
  {
    AggregatesValid(cs);
    var aggs := AggregateAll(cs);
    var es := Entries(aggs.keys, aggs.table, price);
    DateSortedKeepsSums(es, day);
    TotalIsSumOfModes(es);
  }

  /** Every summary line is paid as the rule engine prices its loss. */
  lemma SummaryLinesArePaid(cs: seq<Contribution>, platform: Platform, day: ProcessedEntry -> Option<int>)
    ensures forall i :: 0 <= i < |Summarize(cs, Pricer(platform), day).summary| ==>
              PaidLine(Summarize(cs, Pricer(platform), day).summary[i], platform)
  {
    AggregatesValid(cs);
    var aggs := AggregateAll(cs);
    var es := Entries(aggs.keys, aggs.table, Pricer(platform));
    var summary := DateSorted(es, day);
    DateSortedMembers(es, day);
    EntriesArePaid(aggs.keys, aggs.table, platform);
    forall i | 0 <= i < |summary|
      ensures PaidLine(summary[i], platform)
    {
      assert summary[i] in es;
      var j :| 0 <= j < |es| && es[j] == summary[i];
    }
  }

  /** Sorting only rearranges: every sorted line is one of the input lines. */
  lemma DateSortedMembers(s: seq<ProcessedEntry>, day: ProcessedEntry -> Option<int>)
    ensures forall i :: 0 <= i < |DateSorted(s, day)| ==> DateSorted(s, day)[i] in s
  {
    DateSortedPermutes(s, day);
    forall i | 0 <= i < |DateSorted(s, day)|
      ensures DateSorted(s, day)[i] in s
    {
      assert DateSorted(s, day)[i] in multiset(DateSorted(s, day));
    }
  }

  /** Every bucket whose total the pricing gives a line has that line in the
      summary, and the bucket's total is the loss of all its contributions. */
  lemma SummaryListsPayingBuckets(cs: seq<Contribution>, price: Aggregate -> Option<ProcessedEntry>, day: ProcessedEntry -> Option<int>, k: BucketKey)
    requires k in AggregateAll(cs).table && price(AggregateAll(cs).table[k]).Some?
    ensures price(AggregateAll(cs).table[k]).value in Summarize(cs, price, day).summary
    ensures AggregateAll(cs).table[k].totalLoss == LossFor(cs, k)
  {
    AggregatesValid(cs);
    AggregateTotals(cs, k);
    var aggs := AggregateAll(cs);
    var es := Entries(aggs.keys, aggs.table, price);
    var i :| 0 <= i < |aggs.keys| && aggs.keys[i] == k;
    PricedTotalsListed(aggs.keys, aggs.table, price, i);
    DateSortedPermutes(es, day);
    assert price(aggs.table[k]).value in multiset(DateSorted(es, day));
  }

  /** When every summary line's date reads back, the summary is in date order. */
  lemma SummaryInDateOrder(cs: seq<Contribution>, price: Aggregate -> Option<ProcessedEntry>, day: ProcessedEntry -> Option<int>)
    requires AllDated(Summarize(cs, price, day).summary, day)
    ensures InDateOrder(Summarize(cs, price, day).summary, day)
  {
    AggregatesValid(cs);
    var aggs := AggregateAll(cs);
    var es := Entries(aggs.keys, aggs.table, price);
    var summary := DateSorted(es, day);
    DateSortedPermutes(es, day);
    forall j | 0 <= j < |es|
      ensures day(es[j]).Some?
    {
      assert es[j] in multiset(summary);
      var i :| 0 <= i < |summary| && summary[i] == es[j];
    }
    DateSortedInOrder(es, day);
  }

  /** The file is rejected exactly when some row's classification throws:
      a row with a readable date whose game name is a number. */
  lemma ReportRejectedIffNumericGame(rows: seq<Row>, platform: Platform)
    ensures Report(rows, platform).Err? <==>
            exists i :: 0 <= i < |rows| && RowDate(rows[i]).Some? && RowGame(rows[i]).Some? && RowGame(rows[i]).value.Num?
  {
    RejectedIffSomeRowThrows(rows, RowClassifier(platform));
    if Report(rows, platform).Err? {
      var i :| 0 <= i < |rows| && RowClassifier(platform)(rows[i]).Err?;
      assert RowClassifier(platform)(rows[i]) == ClassifyRow(rows[i], platform);
    }
  }
}
