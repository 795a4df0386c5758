/** The two implementations of an invoice's total: src/models.rs, and the invoice page of src/main.rs. */
module Invoices {
  import opened Wrappers

  /** A JSON value; Other is anything that is not a number a decimal can hold. */
  datatype Value = Amount(value: real) | Other

  type Column = Option<seq<(string, Value)>>

  /** The JSON columns; None when a column is empty or does not parse. */
  datatype Invoice = Invoice(lineCharges: Column, afterLineItems: Column, paymentMade: Option<real>)

  function Entries(c: Column): seq<(string, Value)> {
    if c.None? then [] else c.value
  }

  // --------------------------------------------------------------- models.rs

  function Amounts(entries: seq<(string, Value)>): seq<real> {
    if entries == [] then []
    else (if entries[0].1.Amount? then [entries[0].1.value] else []) + Amounts(entries[1..])
  }

  function Sum(xs: seq<real>): real {
    if xs == [] then 0.0 else xs[0] + Sum(xs[1..])
  }

  function Scale(factor: real, xs: seq<real>): seq<real> {
    if xs == [] then [] else [factor * xs[0]] + Scale(factor, xs[1..])
  }

  function ComputeSubtotal(invoice: Invoice): real {
    Sum(Amounts(Entries(invoice.lineCharges)))
  }

  function ComputeTotal(invoice: Invoice): real {
    var subtotal := ComputeSubtotal(invoice);
    subtotal + Sum(Scale(subtotal, Amounts(Entries(invoice.afterLineItems))))
  }

  // ----------------------------------------------------------------- main.rs

  datatype LineItem = LineItem(description: string, amount: real)

  datatype AfterItem = AfterItem(name: string, amount: real, isDiscount: bool)

  datatype Page = Page(items: seq<LineItem>, after: seq<AfterItem>, subtotal: real, total: real,
                       balanceDue: Option<real>)

  function LineItems(entries: seq<(string, Value)>): seq<LineItem> {
    if entries == [] then []
    else (if entries[0].1.Amount? then [LineItem(entries[0].0, entries[0].1.value)] else []) + LineItems(entries[1..])
  }

  function AfterItems(subtotal: real, entries: seq<(string, Value)>): seq<AfterItem> {
    if entries == [] then []
    else
      (if entries[0].1.Amount? then [AfterItem(entries[0].0, subtotal * entries[0].1.value, entries[0].1.value < 0.0)]
       else []) + AfterItems(subtotal, entries[1..])
  }

  function ItemSum(items: seq<LineItem>): real {
    if items == [] then 0.0 else items[0].amount + ItemSum(items[1..])
  }

  function AfterSum(items: seq<AfterItem>): real {
    if items == [] then 0.0 else items[0].amount + AfterSum(items[1..])
  }

  function View(invoice: Invoice): Page {
    var items := LineItems(Entries(invoice.lineCharges));
    var subtotal := ItemSum(items);
    var after := AfterItems(subtotal, Entries(invoice.afterLineItems));
    var total := subtotal + AfterSum(after);
    var paid := invoice.paymentMade;
    Page(items, after, subtotal, total, if paid.None? then None else Some(total - paid.value))
  }

  // ----------------------------------------------------------------- theorems

  /** One more amount at the end adds itself. */
  lemma {:induction false} SumAppended(xs: seq<real>, x: real)
    ensures Sum(xs + [x]) == Sum(xs) + x
  {
    if xs == [] {
      assert [] + [x] == [x] && [x][1..] == [];
      assert Sum([x]) == x + Sum([]);
    } else {
      SumAppended(xs[1..], x);
      assert (xs + [x])[1..] == xs[1..] + [x];
    }
  }

  lemma {:induction false} SameItems(entries: seq<(string, Value)>)
    ensures ItemSum(LineItems(entries)) == Sum(Amounts(entries))
  {
    if entries != [] {
      SameItems(entries[1..]);
      var items, amounts := LineItems(entries), Amounts(entries);
      if entries[0].1.Amount? {
        assert items[1..] == LineItems(entries[1..]) && amounts[1..] == Amounts(entries[1..]);
      } else {
        assert items == LineItems(entries[1..]) && amounts == Amounts(entries[1..]);
      }
    }
  }

  lemma {:induction false} SameAfterItems(subtotal: real, entries: seq<(string, Value)>)
    ensures AfterSum(AfterItems(subtotal, entries)) == Sum(Scale(subtotal, Amounts(entries)))
  {
    if entries != [] {
      SameAfterItems(subtotal, entries[1..]);
      var items, amounts := AfterItems(subtotal, entries), Amounts(entries);
      if entries[0].1.Amount? {
        assert items[1..] == AfterItems(subtotal, entries[1..]) && amounts[1..] == Amounts(entries[1..]);
        assert Scale(subtotal, amounts)[1..] == Scale(subtotal, amounts[1..]);
      } else {
        assert items == AfterItems(subtotal, entries[1..]) && amounts == Amounts(entries[1..]);
      }
    }
  }

  lemma {:induction false} ScaledSum(factor: real, xs: seq<real>)
    ensures Sum(Scale(factor, xs)) == factor * Sum(xs)
  {
    if xs != [] {
      ScaledSum(factor, xs[1..]);
      assert Scale(factor, xs)[1..] == Scale(factor, xs[1..]);
    }
  }

  /** The page's subtotal and total are the model's. */
  lemma PageAgrees(invoice: Invoice)
    ensures View(invoice).subtotal == ComputeSubtotal(invoice)
    ensures View(invoice).total == ComputeTotal(invoice)
  {
    SameItems(Entries(invoice.lineCharges));
    SameAfterItems(ComputeSubtotal(invoice), Entries(invoice.afterLineItems));
  }

  lemma Distribute(subtotal: real, rate: real)
    ensures subtotal + subtotal * rate == subtotal * (1.0 + rate)
  {
  }

  /** The total is the subtotal times one plus all percentages. */
  lemma TotalIsScaledSubtotal(invoice: Invoice)
    ensures ComputeTotal(invoice) == ComputeSubtotal(invoice) * (1.0 + Sum(Amounts(Entries(invoice.afterLineItems))))
  {
    var subtotal, rates := ComputeSubtotal(invoice), Amounts(Entries(invoice.afterLineItems));
    ScaledSum(subtotal, rates);
    Distribute(subtotal, Sum(rates));
  }

  /** The balance is the total less what was paid, and shown exactly when a payment is recorded. */
  lemma BalanceIsOpenAmount(invoice: Invoice)
    ensures View(invoice).balanceDue.Some? <==> invoice.paymentMade.Some?
    ensures invoice.paymentMade.Some? ==>
            View(invoice).balanceDue.value + invoice.paymentMade.value == ComputeTotal(invoice)
  {
    PageAgrees(invoice);
  }

  /** The entries that are amounts, in order. */
  function Counted(entries: seq<(string, Value)>): seq<(string, Value)> {
    if entries == [] then []
    else (if entries[0].1.Amount? then [entries[0]] else []) + Counted(entries[1..])
  }

  lemma {:induction false} ChargesListed(entries: seq<(string, Value)>, i: nat)
    ensures |LineItems(entries)| == |Counted(entries)|
    ensures i < |Counted(entries)| ==>
              Counted(entries)[i].1.Amount?
                  && LineItems(entries)[i] == LineItem(Counted(entries)[i].0, Counted(entries)[i].1.value)
  {
    if entries != [] {
      if entries[0].1.Amount? {
        ChargesListed(entries[1..], if i > 0 then i - 1 else 0);
        assert LineItems(entries) == [LineItem(entries[0].0, entries[0].1.value)] + LineItems(entries[1..]);
        assert Counted(entries) == [entries[0]] + Counted(entries[1..]);
      } else {
        ChargesListed(entries[1..], i);
        assert LineItems(entries) == LineItems(entries[1..]) && Counted(entries) == Counted(entries[1..]);
      }
    }
  }

  /** An adjustment as the page shows it. */
  predicate Shown(subtotal: real, item: AfterItem, entry: (string, Value)) {
    entry.1.Amount? && item.name == entry.0 && item.amount == subtotal * entry.1.value
    && (item.isDiscount <==> entry.1.value < 0.0)
  }

  lemma {:induction false} AdjustmentsListed(subtotal: real, entries: seq<(string, Value)>, i: nat)
    ensures |AfterItems(subtotal, entries)| == |Counted(entries)|
    ensures i < |Counted(entries)| ==> Shown(subtotal, AfterItems(subtotal, entries)[i], Counted(entries)[i])
  {
    if entries != [] {
      var rest := AfterItems(subtotal, entries[1..]);
      if entries[0].1.Amount? {
        AdjustmentsListed(subtotal, entries[1..], if i > 0 then i - 1 else 0);
        var item := AfterItem(entries[0].0, subtotal * entries[0].1.value, entries[0].1.value < 0.0);
        assert AfterItems(subtotal, entries) == [item] + rest;
        assert Counted(entries) == [entries[0]] + Counted(entries[1..]);
      } else {
        AdjustmentsListed(subtotal, entries[1..], i);
        assert AfterItems(subtotal, entries) == rest && Counted(entries) == Counted(entries[1..]);
      }
    }
  }

  /** The page lists every amount under its own name and in order: a charge as it is, an adjustment as its
      share of the subtotal and as a discount exactly when negative. */
  lemma ListedExactly(invoice: Invoice, i: nat)
    ensures var page, charges := View(invoice), Counted(Entries(invoice.lineCharges));
            && |page.items| == |charges|
            && (i < |charges| ==> charges[i].1.Amount? && page.items[i] == LineItem(charges[i].0, charges[i].1.value))
    ensures var page, adjustments := View(invoice), Counted(Entries(invoice.afterLineItems));
            && |page.after| == |adjustments|
            && (i < |adjustments| ==> Shown(page.subtotal, page.after[i], adjustments[i]))
  {
    ChargesListed(Entries(invoice.lineCharges), i);
    AdjustmentsListed(View(invoice).subtotal, Entries(invoice.afterLineItems), i);
  }
}
