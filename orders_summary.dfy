// The order-history page: its totals over the rows the order route sends, the status
// colours, the invoice link and the query it sends.

module OrdersSummary {
  import opened Common
  import opened UserRoutes

  predicate PaymentIs(row: OrderRow, status: string) {
    row.payment.Some? && row.payment.value.status == status
  }

  function PaymentIsAt(status: string): OrderRow -> bool {
    (row: OrderRow) => PaymentIs(row, status)
  }

  function StatusIsAt(status: string): OrderRow -> bool {
    (row: OrderRow) => row.status == status
  }

  /** `totalSpent`: the payment amounts of the rows whose payment is COMPLETED. */
  function TotalSpent(rows: seq<OrderRow>): int
    decreases |rows|
  {
    if |rows| == 0 then 0
    else TotalSpent(rows[..|rows| - 1])
         + (if PaymentIs(rows[|rows| - 1], "COMPLETED") then rows[|rows| - 1].payment.value.amount else 0)
  }

  /** The total of a concatenation is the sum of the totals. */
  lemma {:induction false} TotalSpentConcat(a: seq<OrderRow>, b: seq<OrderRow>)
    ensures TotalSpent(a + b) == TotalSpent(a) + TotalSpent(b)
    decreases |b|
  {
    if |b| == 0 {
      assert a + b == a;
    } else {
      var b' := b[..|b| - 1];
      assert (a + b)[..|a + b| - 1] == a + b';
      assert (a + b)[|a + b| - 1] == b[|b| - 1];
      TotalSpentConcat(a, b');
    }
  }

  /** Rows without a completed payment add nothing, and with non-negative amounts the
      total is never negative. */
  lemma {:induction false} TotalSpentOnlyCompleted(rows: seq<OrderRow>)
    ensures (forall i :: 0 <= i < |rows| ==> !PaymentIs(rows[i], "COMPLETED")) ==> TotalSpent(rows) == 0
    ensures (forall i :: 0 <= i < |rows| ==> rows[i].payment.Some? ==> rows[i].payment.value.amount >= 0) ==>
              TotalSpent(rows) >= 0
    decreases |rows|
  {
    if |rows| > 0 {
      TotalSpentOnlyCompleted(rows[..|rows| - 1]);
    }
  }

  /** The stat cards: active subscriptions and pending payments. */
  function ActiveCount(rows: seq<OrderRow>): nat { Count(rows, StatusIsAt("ACTIVE")) }

  function PendingCount(rows: seq<OrderRow>): nat { Count(rows, PaymentIsAt("PENDING")) }

  /** A row counts as pending exactly when its payment is PENDING, and no row is both
      pending and counted in the total. */
  lemma CountsSpec(rows: seq<OrderRow>, row: OrderRow)
    ensures row in Filter(rows, PaymentIsAt("PENDING")) <==> row in rows && PaymentIs(row, "PENDING")
    ensures row in Filter(rows, StatusIsAt("ACTIVE")) <==> row in rows && row.status == "ACTIVE"
    ensures ActiveCount(rows) <= |rows| && PendingCount(rows) <= |rows|
    ensures PaymentIs(row, "PENDING") ==> !PaymentIs(row, "COMPLETED")
  {
    FilterMembership(rows, PaymentIsAt("PENDING"), row);
    FilterMembership(rows, StatusIsAt("ACTIVE"), row);
  }

  datatype Colour = Green | Red | Yellow | Grey

  /** `getStatusColor` on subscription and payment statuses alike. */
  function StatusColour(status: string): (c: Colour)
    ensures c == Green <==> status in {"ACTIVE", "COMPLETED"}
    ensures c == Red <==> status in {"EXPIRED", "FAILED"}
    ensures c == Yellow <==> status == "PENDING"
    ensures c == Grey <==> status !in {"ACTIVE", "COMPLETED", "EXPIRED", "FAILED", "PENDING"}
  {
    match status
    case "ACTIVE" => Green
    case "COMPLETED" => Green
    case "EXPIRED" => Red
    case "FAILED" => Red
    case "PENDING" => Yellow
    case "CANCELLED" => Grey
    case _ => Grey
  }

  /** The payment column shows the status, or "N/A" without a payment. */
  function PaymentLabel(row: OrderRow): string {
    if row.payment.Some? && row.payment.value.status != "" then row.payment.value.status else "N/A"
  }

  /** The invoice link. */
  function InvoiceLink(row: OrderRow): (r: Option<string>)
    ensures r.Some? <==> PaymentIs(row, "COMPLETED")
    ensures r.Some? ==> r.value == "/user/orders/" + row.id + "/invoice"
  {
    if PaymentIs(row, "COMPLETED") then Some("/user/orders/" + row.id + "/invoice") else None
  }

  /** A row whose payment shows green has an invoice link exactly when the payment was
      COMPLETED; every row with a link shows a green payment. */
  lemma InvoiceLinkColour(row: OrderRow)
    ensures InvoiceLink(row).Some? ==> StatusColour(PaymentLabel(row)) == Green
    ensures row.payment.None? ==> InvoiceLink(row).None? && StatusColour(PaymentLabel(row)) == Grey
  {
  }

  /** The query the page sends: no status for "ALL", and the day range as given. */
  datatype Query = Query(status: Option<string>, days: Option<string>)

  function QueryParams(filter: string, dateRange: string): (q: Query)
    ensures q.status.None? <==> filter == "ALL"
    ensures q.status.Some? ==> q.status.value == filter
    ensures q.days == Some(dateRange)
  {
    Query(if filter != "ALL" then Some(filter) else None, Some(dateRange))
  }

  /** The page's "ALL" tab asks the route for every status: the route treats the absent
      status and "ALL" alike, so the page's choice to omit it changes nothing. */
  lemma QueryAllMatchesRoute(userId: string, records: seq<OrderRecord>, dateRange: string,
                             toNumber: string -> Option<int>, now: int)
    ensures var q := QueryParams("ALL", dateRange);
            UserOrders(userId, records, q.status, q.days, toNumber, now)
              == UserOrders(userId, records, Some("ALL"), q.days, toNumber, now)
  {
  }
}
