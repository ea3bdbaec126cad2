/**
 * The decision and aggregation logic of the expense tracker
 * (E-trax-files/script.js): the budget panel's classification, the list
 * total, the per-date and per-type chart data, the edit summary and the
 * choice between creating and updating an expense. The network, Firebase,
 * the charts library and the HTML are not modelled; amounts are exact reals
 * rather than doubles.
 */
module ExpenseTracker {
  import opened Common
  import opened JsString

  /** The result of `parseFloat`: a number or NaN. */
  datatype Parsed = Num(value: real) | NaN

  /** `parseFloat(x) || 0`: NaN counts as zero. */
  function OrZero(p: Parsed): real {
    match p
    case Num(v) => v
    case NaN => 0.0
  }

  /** An expense as the list and the charts read it. */
  datatype Expense = Expense(name: string, amount: Parsed, kind: string, description: string, date: string)

  // ---------------------------------------------------------------------------
  // Budget panel

  datatype BudgetStatus = OnTrack | Approaching | OverBudget(overrun: real)

  /** What the panel shows: nothing when no budget is set, otherwise the
      progress bar width, the percentage used and the status. */
  datatype BudgetView = NoBudget | Shown(progress: real, percent: real, status: BudgetStatus)

  /** `updateBudgetUI(budgetAmount, totalSpent)` */
  function BudgetViewOf(budget: Parsed, spent: real): (v: BudgetView)
    ensures v.NoBudget? <==> budget.NaN? || budget.value <= 0.0
    ensures v.Shown? ==> v.progress <= 100.0 && v.progress <= v.percent
    ensures v.Shown? && 0.0 <= spent ==> 0.0 <= v.progress
    ensures v.Shown? ==> v.percent * budget.value == spent * 100.0
    ensures v.Shown? ==> v.progress == (if v.percent < 100.0 then v.percent else 100.0)
  {
    match budget
    case NaN => NoBudget
    case Num(b) =>
      if b <= 0.0 then NoBudget
      else
        var pct := spent / b * 100.0;
        var clamped := if pct < 100.0 then pct else 100.0;
        var status := if pct >= 100.0 then OverBudget(spent - b)
                      else if pct >= 80.0 then Approaching
                      else OnTrack;
        Shown(clamped, pct, status)
  }

  lemma PercentScale(b: real, spent: real, threshold: real)
    requires b > 0.0
    ensures spent / b * 100.0 >= threshold <==> spent * 100.0 >= threshold * b
  {
    var pct := spent / b * 100.0;
    assert pct * b == spent * 100.0;
    if pct >= threshold {
      assert pct * b >= threshold * b;
    }
    if spent * 100.0 >= threshold * b {
      assert pct * b >= threshold * b;
    }
  }

  /** With a budget set, the status depends only on how the amount spent
      compares with the budget: over at 100% and beyond, by the overrun;
      approaching from 80%; on track below. The bar is full exactly when
      over budget. */
  lemma BudgetStatusSpec(b: real, spent: real)
    requires b > 0.0
    ensures var v := BudgetViewOf(Num(b), spent);
            && v.Shown?
            && (v.status.OverBudget? <==> spent >= b)
            && (v.status.OverBudget? ==> v.status.overrun == spent - b && v.status.overrun >= 0.0)
            && (v.status == Approaching <==> 80.0 * b <= spent * 100.0 && spent < b)
            && (v.status == OnTrack <==> spent * 100.0 < 80.0 * b)
            && (v.progress == 100.0 <==> spent >= b)
            && v.percent * b == spent * 100.0
            && v.progress == (if spent >= b then 100.0 else v.percent)
  {
    PercentScale(b, spent, 100.0);
    PercentScale(b, spent, 80.0);
  }

  /** The save button sends the budget only when it parses to a positive
      number. */
  function AcceptsBudgetInput(val: Parsed): (ok: bool)
    ensures ok <==> val.Num? && val.value > 0.0
  {
    match val
    case Num(v) => v > 0.0
    case NaN => false
  }

  /** The save button sends exactly the budgets the panel would show: an
      accepted input gives a bar and a status whatever has been spent, and a
      refused one would clear the panel. */
  lemma AcceptedBudgetIsShown(val: Parsed, spent: real)
    ensures AcceptsBudgetInput(val) <==> BudgetViewOf(val, spent).Shown?
  {
  }

  // ---------------------------------------------------------------------------
  // Totals

  /** The sum of the amounts, NaN counting as zero. */
  function Total(xs: seq<Expense>): real
    decreases |xs|
  {
    if xs == [] then 0.0 else Total(xs[..|xs| - 1]) + OrZero(xs[|xs| - 1].amount)
  }

  /** `loadData`'s running total `totalForSum` (and `fetchBudget`'s
      `totalAmount`, which sums the same way). */
  method ListTotal(expenses: seq<Expense>) returns (totalForSum: real)
    ensures totalForSum == Total(expenses)
  {
    totalForSum := 0.0;
    var i := 0;
    while i < |expenses|
      invariant 0 <= i <= |expenses|
      invariant totalForSum == Total(expenses[..i])
    {
      var amount := OrZero(expenses[i].amount);
      totalForSum := totalForSum + amount;
      assert expenses[..i + 1][..i] == expenses[..i];
      i := i + 1;
    }
    assert expenses[..i] == expenses;
  }

  /** The field `renderCharts` groups by. */
  datatype Field = Date | Kind

  function KeyOf(e: Expense, field: Field): string {
    match field
    case Date => e.date
    case Kind => e.kind
  }

  /** The sum of the amounts of the expenses whose field is `k`. */
  function GroupTotal(xs: seq<Expense>, field: Field, k: string): real
    decreases |xs|
  {
    if xs == [] then 0.0
    else
      var last := xs[|xs| - 1];
      GroupTotal(xs[..|xs| - 1], field, k) + (if KeyOf(last, field) == k then OrZero(last.amount) else 0.0)
  }

  /** A plain JavaScript object from strings to numbers: its keys in
      insertion order, and its entries. */
  datatype Tally = Tally(keys: seq<string>, totals: map<string, real>)
  {
    ghost predicate WellFormed() {
      && (forall i, j :: 0 <= i < j < |keys| ==> keys[i] != keys[j])
      && (forall k :: k in totals <==> k in keys)
    }

    /** `d[k] || 0` */
    function Get(k: string): real {
      if k in totals then totals[k] else 0.0
    }

    /** `d[k] = (d[k] || 0) + amt`: a new key goes last. */
    function Add(k: string, amt: real): Tally {
      Tally(if k in totals then keys else keys + [k], totals[k := Get(k) + amt])
    }
  }

  const EmptyTally: Tally := Tally([], map[])

  /** The object the loop of `renderCharts` builds for one field. */
  function TallyOf(xs: seq<Expense>, field: Field): Tally
    decreases |xs|
  {
    if xs == [] then EmptyTally
    else
      var last := xs[|xs| - 1];
      TallyOf(xs[..|xs| - 1], field).Add(KeyOf(last, field), OrZero(last.amount))
  }

  /** `renderCharts`'s loop: both objects are built in one pass. */
  method ChartData(rawData: seq<Expense>) returns (dates: Tally, cats: Tally)
    ensures dates == TallyOf(rawData, Date)
    ensures cats == TallyOf(rawData, Kind)
  {
    dates := EmptyTally;
    cats := EmptyTally;
    var i := 0;
    while i < |rawData|
      invariant 0 <= i <= |rawData|
      invariant dates == TallyOf(rawData[..i], Date)
      invariant cats == TallyOf(rawData[..i], Kind)
    {
      var x := rawData[i];
      var amt := OrZero(x.amount);
      dates := dates.Add(x.date, amt);
      cats := cats.Add(x.kind, amt);
      assert rawData[..i + 1][..i] == rawData[..i];
      i := i + 1;
    }
    assert rawData[..i] == rawData;
  }

  /** Some expense has `k` in the field. */
  predicate Occurs(xs: seq<Expense>, field: Field, k: string) {
    exists i :: 0 <= i < |xs| && KeyOf(xs[i], field) == k
  }

  lemma OccursSnoc(xs: seq<Expense>, field: Field, k: string)
    requires xs != []
    ensures Occurs(xs, field, k) <==> Occurs(xs[..|xs| - 1], field, k) || KeyOf(xs[|xs| - 1], field) == k
  {
    var init := xs[..|xs| - 1];
    if Occurs(init, field, k) {
      var i :| 0 <= i < |init| && KeyOf(init[i], field) == k;
      assert xs[i] == init[i];
    }
    if Occurs(xs, field, k) {
      var i :| 0 <= i < |xs| && KeyOf(xs[i], field) == k;
      if i < |init| {
        assert init[i] == xs[i];
      }
    }
  }

  lemma AddWellFormed(t: Tally, k: string, amt: real)
    requires t.WellFormed()
    ensures t.Add(k, amt).WellFormed()
    ensures forall x :: x in t.Add(k, amt).totals <==> x in t.totals || x == k
  {
  }

  /** Each key of the chart data appears once, and the keys are exactly the
      values the field takes. */
  lemma {:induction false} TallyOfKeys(xs: seq<Expense>, field: Field)
    ensures TallyOf(xs, field).WellFormed()
    ensures forall k :: k in TallyOf(xs, field).totals <==> Occurs(xs, field, k)
    decreases |xs|
  {
    if xs != [] {
      var init := xs[..|xs| - 1];
      var last := xs[|xs| - 1];
      TallyOfKeys(init, field);
      AddWellFormed(TallyOf(init, field), KeyOf(last, field), OrZero(last.amount));
      forall k ensures k in TallyOf(xs, field).totals <==> Occurs(xs, field, k) {
        OccursSnoc(xs, field, k);
      }
    }
  }

  /** Each entry of the chart data is the sum of the amounts of the expenses
      with that key, and zero for a key no expense has. */
  lemma {:induction false} TallyOfTotals(xs: seq<Expense>, field: Field, k: string)
    ensures TallyOf(xs, field).Get(k) == GroupTotal(xs, field, k)
    decreases |xs|
  {
    if xs != [] {
      TallyOfTotals(xs[..|xs| - 1], field, k);
    }
  }

  /** The sum of the entries of the object, over its keys. */
  function SumOver(keys: seq<string>, t: Tally): real
    decreases |keys|
  {
    if keys == [] then 0.0 else SumOver(keys[..|keys| - 1], t) + t.Get(keys[|keys| - 1])
  }

  lemma {:induction false} SumOverSame(keys: seq<string>, t: Tally, u: Tally)
    requires forall k :: k in keys ==> t.Get(k) == u.Get(k)
    ensures SumOver(keys, t) == SumOver(keys, u)
    decreases |keys|
  {
    if keys != [] {
      SumOverSame(keys[..|keys| - 1], t, u);
    }
  }

  /** Raising one entry that occurs once among the keys raises the sum by
      the same amount. */
  lemma {:induction false} SumOverBump(keys: seq<string>, t: Tally, u: Tally, k: string, amt: real)
    requires forall i, j :: 0 <= i < j < |keys| ==> keys[i] != keys[j]
    requires k in keys
    requires u.Get(k) == t.Get(k) + amt
    requires forall x :: x != k ==> u.Get(x) == t.Get(x)
    ensures SumOver(keys, u) == SumOver(keys, t) + amt
    decreases |keys|
  {
    var init := keys[..|keys| - 1];
    if keys[|keys| - 1] == k {
      assert k !in init by {
        forall i | 0 <= i < |init| ensures init[i] != k {
          assert init[i] == keys[i];
        }
      }
      SumOverSame(init, t, u);
    } else {
      assert k in init by {
        var i :| 0 <= i < |keys| && keys[i] == k;
        assert init[i] == k;
      }
      SumOverBump(init, t, u, k, amt);
    }
  }

  /** Adding to the object adds to the sum of its entries. */
  lemma AddSum(t: Tally, k: string, amt: real)
    requires t.WellFormed()
    ensures SumOver(t.Add(k, amt).keys, t.Add(k, amt)) == SumOver(t.keys, t) + amt
  {
    var u := t.Add(k, amt);
    if k in t.totals {
      SumOverBump(t.keys, t, u, k, amt);
    } else {
      assert u.keys[..|u.keys| - 1] == t.keys;
      assert t.Get(k) == 0.0;
      SumOverSame(t.keys, t, u);
    }
  }

  /** The per-date totals and the per-type totals each add up to the list
      total. */
  lemma {:induction false} ChartTotalsMatchListTotal(xs: seq<Expense>, field: Field)
    ensures SumOver(TallyOf(xs, field).keys, TallyOf(xs, field)) == Total(xs)
    decreases |xs|
  {
    if xs != [] {
      var init := xs[..|xs| - 1];
      var last := xs[|xs| - 1];
      ChartTotalsMatchListTotal(init, field);
      TallyOfKeys(init, field);
      AddSum(TallyOf(init, field), KeyOf(last, field), OrZero(last.amount));
    }
  }

  // ---------------------------------------------------------------------------
  // Edit summary and submission

  /** The fields of an edit record that `formatChanges` compares. */
  datatype Snapshot = Snapshot(name: string, amount: string)

  datatype ChangeLine = NameLine(before: string, after: string)
                      | AmountLine(before: string, after: string)
                      | GenericLine

  /** `formatChanges`: a name line, then an amount line, for the fields that
      differ; the generic message when neither does. */
  function FormatChanges(before: Snapshot, after: Snapshot): (lines: seq<ChangeLine>)
    ensures 1 <= |lines| <= 2
    ensures NameLine(before.name, after.name) in lines <==> before.name != after.name
    ensures AmountLine(before.amount, after.amount) in lines <==> before.amount != after.amount
    ensures lines == [GenericLine] <==> before == after
    ensures forall l :: l in lines ==>
              l == NameLine(before.name, after.name) || l == AmountLine(before.amount, after.amount)
              || l == GenericLine
    ensures |lines| == 2 ==> lines[0].NameLine?
  {
    var nameDiffers := before.name != after.name;
    var amountDiffers := before.amount != after.amount;
    if nameDiffers && amountDiffers then
      [NameLine(before.name, after.name), AmountLine(before.amount, after.amount)]
    else if nameDiffers then [NameLine(before.name, after.name)]
    else if amountDiffers then [AmountLine(before.amount, after.amount)]
    else [GenericLine]
  }

  datatype HttpMethod = Post | Put

  /** The body the form sends: text fields trimmed, and the editor's name
      on an update. */
  datatype Payload = Payload(uid: string, name: string, amount: string, kind: string,
                             description: string, date: string, editorName: Option<string>)

  datatype Request = Request(httpMethod: HttpMethod, url: string, body: Payload)

  /** The endpoint: `/update/<id>` for the expense being edited, `/submit`
      for a new one. */
  function Endpoint(baseUrl: string, editId: string): (url: string)
    ensures |url| > |baseUrl| && url[..|baseUrl|] == baseUrl
    ensures editId != "" ==> |url| == |baseUrl| + 8 + |editId|
    ensures editId != "" ==> url[|baseUrl|..|baseUrl| + 8] == "/update/" && url[|baseUrl| + 8..] == editId
    ensures editId == "" ==> url[|baseUrl|..] == "/submit"
  {
    if editId != "" then baseUrl + "/update/" + editId else baseUrl + "/submit"
  }

  /** The form's submit handler: nothing without a signed-in user; PUT when
      an expense is being edited, with the editor's name in the body, POST
      otherwise. */
  function SubmitRequest(baseUrl: string, uid: string, editId: string, userName: string,
                         name: string, amount: string, kind: string, description: string,
                         date: string): (r: Option<Request>)
    ensures r.None? <==> uid == ""
    ensures r.Some? ==> (r.value.httpMethod == Put <==> editId != "")
    ensures r.Some? ==> r.value.url == Endpoint(baseUrl, editId)
    ensures r.Some? ==> r.value.body.editorName == if editId != "" then Some(userName) else None
    ensures r.Some? ==> r.value.body.uid == uid && r.value.body.kind == kind && r.value.body.date == date
    ensures r.Some? ==> r.value.body.name == Trim(name) && r.value.body.amount == Trim(amount)
                        && r.value.body.description == Trim(description)
  {
    if uid == "" then None
    else
      var body := Payload(uid, Trim(name), Trim(amount), kind, Trim(description), date,
                          if editId != "" then Some(userName) else None);
      Some(Request(if editId != "" then Put else Post, Endpoint(baseUrl, editId), body))
  }

  // ---------------------------------------------------------------------------
  // The panel's state

  class BudgetPanel {
    var currentBudgetAmount: Parsed
    var view: BudgetView

    constructor ()
      ensures currentBudgetAmount == Num(0.0) && view == NoBudget
    {
      currentBudgetAmount := Num(0.0);
      view := NoBudget;
    }

    /** `clearBudgetUI` */
    method ClearBudgetUI()
      modifies this
      ensures currentBudgetAmount == Num(0.0) && view == NoBudget
    {
      view := NoBudget;
      currentBudgetAmount := Num(0.0);
    }

    /** `updateBudgetUI`: shows the view; without a budget it clears the
        panel, which resets the current amount to zero. */
    method UpdateBudgetUI(budgetAmount: Parsed, totalSpent: real)
      modifies this
      ensures view == BudgetViewOf(budgetAmount, totalSpent)
      ensures currentBudgetAmount == if view.NoBudget? then Num(0.0) else old(currentBudgetAmount)
    {
      var v := BudgetViewOf(budgetAmount, totalSpent);
      if v.NoBudget? {
        ClearBudgetUI();
        return;
      }
      view := v;
    }

    /** `fetchBudget` once the budget and the expenses have arrived: the
        amount is stored, the expenses summed and the panel updated. */
    method ApplyFetchedBudget(bAmount: Parsed, arr: seq<Expense>)
      modifies this
      ensures view == BudgetViewOf(bAmount, Total(arr))
      ensures currentBudgetAmount == if view.NoBudget? then Num(0.0) else bAmount
    {
      currentBudgetAmount := bAmount;
      var totalAmount := ListTotal(arr);
      UpdateBudgetUI(currentBudgetAmount, totalAmount);
    }
  }
}
