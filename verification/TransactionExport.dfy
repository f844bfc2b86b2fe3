/**
 * The three pagination drivers of the transaction exporter and the rule that
 * decides which file each one downloads.
 *
 * The network is a finite sequence of page responses, the i-th answering the
 * i-th request. Each response is either the parsed body or the error that
 * `fetch` / `response.json()` threw. Should a driver ask for more pages than
 * the sequence holds, that request gets `NoResponse`: it never settles, and
 * the driver waits forever.
 *
 * JavaScript falsy values are folded into one representation each: an absent
 * or zero `meta.total` is 0, an absent or empty token/link is "", an absent or
 * empty record array is [].
 */
module TransactionExport {
  import opened Common
  import opened Text

  datatype FetchError = Thrown(message: string) | NoResponse

  datatype Fetch<P> = Answer(body: P) | Throws(error: FetchError)

  /** The result of one driver run: records in fetch order, the cursor sent with
      each request (one per request, in order), and the error that ended the
      run, if one did. */
  datatype Run<R, C> = Run(records: seq<R>, cursors: seq<C>, failure: Option<FetchError>)

  // ================================================================ token-chained paging

  /** One cashback page: `data.data`, `data.meta.total` and `data.meta.pagination.next`. */
  datatype CashbackBody<R> = CashbackBody(data: seq<R>, metaTotal: int, paginationNext: string)

  /** One payment page: `data.data.withdrawals`, `data.meta.total` and `data.meta.next`. */
  datatype PaymentBody<R> = PaymentBody(withdrawals: seq<R>, metaTotal: int, metaNext: string)

  /** What the shared token loop reads from a page: its records, the reported
      total (0 when absent) and the continuation token. */
  datatype TokenPage<R> = TokenPage(records: seq<R>, total: int, next: Option<string>)

  /** `/next=([^&]+)/` matches at `p`. */
  predicate ParamAt(s: string, p: nat) {
    At(s, p, "next=") && p + 5 < |s| && s[p + 5] != '&'
  }

  /** The leftmost position at or after `from` where the token pattern matches. */
  function FirstParam(s: string, from: nat): (r: Option<nat>)
    ensures r.Some? ==> from <= r.value && ParamAt(s, r.value)
    ensures r.Some? ==> forall q: nat :: from <= q < r.value ==> !ParamAt(s, q)
    ensures r.None? ==> forall q: nat :: from <= q ==> !ParamAt(s, q)
    decreases |s| - from
  {
    if from + 5 >= |s| then None
    else if ParamAt(s, from) then Some(from)
    else FirstParam(s, from + 1)
  }

  /** The first capture group of `link.match(/next=([^&]+)/)`, if it matches. */
  function NextParam(link: string): Option<string>
  {
    match FirstParam(link, 0)
    case None => None
    case Some(p) => Some(link[p + 5..p + 5 + RunLength(link, p + 5, NotAmp)])
  }

  /** The cashback token is the text after the first usable `next=` up to the
      next `&` or the end; there is none exactly when no `next=` is followed by
      a character other than `&`. */
  lemma NextParamSpec(link: string)
    ensures NextParam(link).None? <==> forall q: nat :: !ParamAt(link, q)
    ensures NextParam(link).Some? ==>
      var t := NextParam(link).value;
      && |t| >= 1 && '&' !in t
      && exists p: nat ::
        && At(link, p, "next=" + t)
        && (p + 5 + |t| == |link| || link[p + 5 + |t|] == '&')
        && forall q: nat :: q < p ==> !ParamAt(link, q)
  {
    match FirstParam(link, 0)
    case None =>
    case Some(p) =>
      var n := RunLength(link, p + 5, NotAmp);
      var t := link[p + 5..p + 5 + n];
      assert link[p + 5] != '&';
      assert n >= 1;
      assert forall i :: 0 <= i < |t| ==> t[i] == link[p + 5 + i];
      assert link[p..p + 5 + |t|] == link[p..p + 5] + t;
      assert At(link, p, "next=" + t);
  }

  function CashbackPage<R>(b: CashbackBody<R>): TokenPage<R> {
    TokenPage(b.data, b.metaTotal, if b.paginationNext == "" then None else NextParam(b.paginationNext))
  }

  function PaymentPage<R>(b: PaymentBody<R>): TokenPage<R> {
    TokenPage(b.withdrawals, b.metaTotal, if b.metaNext == "" then None else Some(b.metaNext))
  }

  function CashbackPages<R>(resp: seq<Fetch<CashbackBody<R>>>): (r: seq<Fetch<TokenPage<R>>>)
    ensures |r| == |resp|
    ensures forall i :: 0 <= i < |resp| ==>
      r[i] == (match resp[i] case Answer(b) => Answer(CashbackPage(b)) case Throws(e) => Throws(e))
  {
    if |resp| == 0 then []
    else
      [match resp[0] case Answer(b) => Answer(CashbackPage(b)) case Throws(e) => Throws(e)]
      + CashbackPages(resp[1..])
  }

  function PaymentPages<R>(resp: seq<Fetch<PaymentBody<R>>>): (r: seq<Fetch<TokenPage<R>>>)
    ensures |r| == |resp|
    ensures forall i :: 0 <= i < |resp| ==>
      r[i] == (match resp[i] case Answer(b) => Answer(PaymentPage(b)) case Throws(e) => Throws(e))
  {
    if |resp| == 0 then []
    else
      [match resp[0] case Answer(b) => Answer(PaymentPage(b)) case Throws(e) => Throws(e)]
      + PaymentPages(resp[1..])
  }

  /** The do-while loop shared by `fetchAllCashbackTransactions` and
      `fetchAllPaymentTransactions`: fetch with the current token, take the
      total from the first page only, append the page's records, read the next
      token, stop once the count reaches the total or no token is left. `have`
      is the number of records accumulated so far. */
  function TokenLoop<R>(resp: seq<Fetch<TokenPage<R>>>, token: Option<string>, total: int, have: nat, first: bool)
    : (run: Run<R, Option<string>>)
    ensures 1 <= |run.cursors| <= |resp| + 1
    ensures run.cursors[0] == token
    decreases |resp|
  {
    if |resp| == 0 then Run([], [token], Some(NoResponse))
    else
      match resp[0]
      case Throws(e) => Run([], [token], Some(e))
      case Answer(page) =>
        var total' := if first && page.total != 0 then page.total else total;
        var have' := have + |page.records|;
        if have' >= total' || page.next.None? then Run(page.records, [token], None)
        else
          var rest := TokenLoop(resp[1..], page.next, total', have', false);
          Run(page.records + rest.records, [token] + rest.cursors, rest.failure)
  }

  function CashbackRun<R>(resp: seq<Fetch<CashbackBody<R>>>): Run<R, Option<string>> {
    TokenLoop(CashbackPages(resp), None, 0, 0, true)
  }

  function PaymentRun<R>(resp: seq<Fetch<PaymentBody<R>>>): Run<R, Option<string>> {
    TokenLoop(PaymentPages(resp), None, 0, 0, true)
  }

  function RecordsOf<R>(f: Fetch<TokenPage<R>>): seq<R> {
    if f.Answer? then f.body.records else []
  }

  /** The records of the answered pages, in order. */
  function Collected<R>(resp: seq<Fetch<TokenPage<R>>>): seq<R> {
    if |resp| == 0 then [] else RecordsOf(resp[0]) + Collected(resp[1..])
  }

  lemma CollectedCons<R>(resp: seq<Fetch<TokenPage<R>>>, k: nat)
    requires 1 <= k <= |resp|
    ensures Collected(resp[..k]) == RecordsOf(resp[0]) + Collected(resp[1..][..k - 1])
  {
    assert resp[..k][1..] == resp[1..][..k - 1];
  }

  /** The total the loop compares against: the first page's, when the loop is
      on its first page and that page reports a non-zero total. */
  function EffectiveTotal<R>(resp: seq<Fetch<TokenPage<R>>>, total: int, first: bool): int {
    if first && |resp| > 0 && resp[0].Answer? && resp[0].body.total != 0 then resp[0].body.total else total
  }

  /** The pages a token-loop run walked past: every request but the last
      was answered with a continuation token, which the next request
      carries, and left the count (starting from `have`) below the total `e`. */
  predicate WalkedPast<R>(resp: seq<Fetch<TokenPage<R>>>, cursors: seq<Option<string>>, have: nat, e: int) {
    && |cursors| <= |resp| + 1
    && forall j :: 0 <= j < |cursors| - 1 ==>
         && resp[j].Answer? && resp[j].body.next.Some?
         && cursors[j + 1] == resp[j].body.next
         && have + |Collected(resp[..j + 1])| < e
  }

  lemma {:induction false} TokenLoopPages<R>(resp: seq<Fetch<TokenPage<R>>>, token: Option<string>, total: int, have: nat, first: bool)
    ensures WalkedPast(resp, TokenLoop(resp, token, total, have, first).cursors, have, EffectiveTotal(resp, total, first))
    decreases |resp|
  {
    var run := TokenLoop(resp, token, total, have, first);
    var e := EffectiveTotal(resp, total, first);
    if |resp| > 0 && resp[0].Answer? {
      var page := resp[0].body;
      var have' := have + |page.records|;
      if !(have' >= e || page.next.None?) {
        TokenLoopPages(resp[1..], page.next, e, have', false);
        var rest := TokenLoop(resp[1..], page.next, e, have', false);
        assert EffectiveTotal(resp[1..], e, false) == e;
        assert run == Run(page.records + rest.records, [token] + rest.cursors, rest.failure);
        forall j | 0 <= j < |run.cursors| - 1
          ensures resp[j].Answer? && resp[j].body.next.Some?
          ensures run.cursors[j + 1] == resp[j].body.next
          ensures have + |Collected(resp[..j + 1])| < e
        {
          CollectedCons(resp, j + 1);
          if j > 0 {
            var i := j - 1;
            assert 0 <= i < |rest.cursors| - 1;
            assert resp[j] == resp[1..][i];
            assert run.cursors[j + 1] == rest.cursors[j];
          }
        }
      }
    }
  }

  /** How a token-loop run ends. The records are exactly those of the
      answered pages, in fetch order. A run ends without error on an answered
      page that has no token or brings the count to the total; it ends with
      an error when a request throws (that page contributes nothing) or no
      response is left. */
  lemma {:induction false} TokenLoopEnd<R>(resp: seq<Fetch<TokenPage<R>>>, token: Option<string>, total: int, have: nat, first: bool)
    ensures
      var run := TokenLoop(resp, token, total, have, first);
      var n := |run.cursors| - 1;
      var e := EffectiveTotal(resp, total, first);
      && (run.failure.None? ==>
            && n < |resp| && resp[n].Answer?
            && run.records == Collected(resp[..n + 1])
            && (resp[n].body.next.None? || have + |run.records| >= e))
      && (run.failure.Some? ==>
            && run.records == Collected(resp[..n])
            && (n == |resp| ==> run.failure == Some(NoResponse))
            && (n < |resp| ==> resp[n] == Throws(run.failure.value)))
    decreases |resp|, 1
  {
    var e := EffectiveTotal(resp, total, first);
    if |resp| == 0 {
    } else if resp[0].Throws? {
      assert resp[..0] == [];
    } else {
      var page := resp[0].body;
      if have + |page.records| >= e || page.next.None? {
        CollectedCons(resp, 1);
        assert resp[1..][..0] == [];
      } else {
        TokenLoopEndNext(resp, token, total, have, first);
      }
    }
  }

  /** The inductive step of `TokenLoopEnd`: the first page is answered and
      the loop goes on. */
  lemma {:induction false} TokenLoopEndNext<R>(resp: seq<Fetch<TokenPage<R>>>, token: Option<string>, total: int, have: nat, first: bool)
    requires |resp| > 0 && resp[0].Answer?
    requires var e := EffectiveTotal(resp, total, first);
      !(have + |resp[0].body.records| >= e || resp[0].body.next.None?)
    ensures
      var run := TokenLoop(resp, token, total, have, first);
      var n := |run.cursors| - 1;
      var e := EffectiveTotal(resp, total, first);
      && (run.failure.None? ==>
            && n < |resp| && resp[n].Answer?
            && run.records == Collected(resp[..n + 1])
            && (resp[n].body.next.None? || have + |run.records| >= e))
      && (run.failure.Some? ==>
            && run.records == Collected(resp[..n])
            && (n == |resp| ==> run.failure == Some(NoResponse))
            && (n < |resp| ==> resp[n] == Throws(run.failure.value)))
    decreases |resp|, 0
  {
    var e := EffectiveTotal(resp, total, first);
    var page := resp[0].body;
    var have' := have + |page.records|;
    TokenLoopEnd(resp[1..], page.next, e, have', false);
    var rest := TokenLoop(resp[1..], page.next, e, have', false);
    assert EffectiveTotal(resp[1..], e, false) == e;
    var run := TokenLoop(resp, token, total, have, first);
    assert run == Run(page.records + rest.records, [token] + rest.cursors, rest.failure);
    var m := |rest.cursors| - 1;
    var n := |run.cursors| - 1;
    assert n == m + 1;
    if m < |resp| - 1 {
      assert resp[n] == resp[1..][m];
    }
    if run.failure.None? {
      CollectedCons(resp, n + 1);
      assert have + |run.records| == have' + |rest.records|;
    } else {
      CollectedCons(resp, n);
    }
  }

  /** Complete description of a token-loop run: the pages it walked past and
      how it ended. */
  lemma TokenLoopSpec<R>(resp: seq<Fetch<TokenPage<R>>>, token: Option<string>, total: int, have: nat, first: bool)
    ensures
      var run := TokenLoop(resp, token, total, have, first);
      var n := |run.cursors| - 1;
      var e := EffectiveTotal(resp, total, first);
      && WalkedPast(resp, run.cursors, have, e)
      && (run.failure.None? ==>
            && n < |resp| && resp[n].Answer?
            && run.records == Collected(resp[..n + 1])
            && (resp[n].body.next.None? || have + |run.records| >= e))
      && (run.failure.Some? ==>
            && run.records == Collected(resp[..n])
            && (n == |resp| ==> run.failure == Some(NoResponse))
            && (n < |resp| ==> resp[n] == Throws(run.failure.value)))
  {
    TokenLoopPages(resp, token, total, have, first);
    TokenLoopEnd(resp, token, total, have, first);
  }

  /** Agreement of two pages in everything but the reported total. */
  ghost predicate SameButTotal<R>(a: Fetch<TokenPage<R>>, b: Fetch<TokenPage<R>>) {
    match a
    case Throws(e) => b == Throws(e)
    case Answer(p) => b.Answer? && b.body.records == p.records && b.body.next == p.next
  }

  /** After the first page the loop never looks at a page's total. */
  lemma {:induction false} LaterTotalsIgnored<R>(resp: seq<Fetch<TokenPage<R>>>, resp': seq<Fetch<TokenPage<R>>>,
                                                  token: Option<string>, total: int, have: nat)
    requires |resp| == |resp'|
    requires forall j :: 0 <= j < |resp| ==> SameButTotal(resp[j], resp'[j])
    ensures TokenLoop(resp, token, total, have, false) == TokenLoop(resp', token, total, have, false)
    decreases |resp|
  {
    if |resp| > 0 && resp[0].Answer? {
      var p := resp[0].body;
      if !(have + |p.records| >= total || p.next.None?) {
        LaterTotalsIgnored(resp[1..], resp'[1..], p.next, total, have + |p.records|);
      }
    }
  }

  /** The total is read from the first page only: two response sequences that
      differ only in the totals reported after the first page give the same run. */
  lemma TotalFromFirstPageOnly<R>(resp: seq<Fetch<TokenPage<R>>>, resp': seq<Fetch<TokenPage<R>>>)
    requires |resp| == |resp'| >= 1
    requires resp[0] == resp'[0]
    requires forall j :: 1 <= j < |resp| ==> SameButTotal(resp[j], resp'[j])
    ensures TokenLoop(resp, None, 0, 0, true) == TokenLoop(resp', None, 0, 0, true)
  {
    if resp[0].Answer? {
      var p := resp[0].body;
      var e := if p.total != 0 then p.total else 0;
      if !(|p.records| >= e || p.next.None?) {
        LaterTotalsIgnored(resp[1..], resp'[1..], p.next, e, |p.records|);
      }
    }
  }

  /** A first page that reports no total (or a zero or negative one) is the
      only page fetched. */
  lemma MissingTotalOneFetch<R>(resp: seq<Fetch<TokenPage<R>>>)
    requires |resp| >= 1 && resp[0].Answer? && resp[0].body.total <= 0
    ensures TokenLoop(resp, None, 0, 0, true) == Run(resp[0].body.records, [None], None)
  {
  }

  // ================================================================ cursor-by-last-item paging

  /** An order as the history endpoint returns it; `orderNumber` is `None` for
      a JSON `null`. */
  datatype Order<D> = Order(orderNumber: Option<string>, paidAt: string, details: D)

  /** A parsed order-history response: the orders of `data.data.orders`
      (empty when absent), or the text held no `{...}`, or `JSON.parse` threw. */
  datatype OrderReply<D> = Orders(orders: seq<Order<D>>) | NoJsonObject | BadJson

  /** The `while (hasMoreData)` loop of `fetchAllOrdersAndDownload`. `before`
      is the cursor sent with the next request; `last` is the last order number
      appended so far (`None` for the initial `null`). A non-empty page whose
      last order number repeats `last` ends the loop and is dropped. */
  function OrderLoop<D>(resp: seq<Fetch<OrderReply<D>>>, before: string, last: Option<string>)
    : (run: Run<Order<D>, string>)
    ensures 1 <= |run.cursors| <= |resp| + 1
    ensures run.cursors[0] == before
    decreases |resp|
  {
    if |resp| == 0 then Run([], [before], Some(NoResponse))
    else
      match resp[0]
      case Throws(e) => Run([], [before], Some(e))
      case Answer(NoJsonObject) => Run([], [before], None)
      case Answer(BadJson) => Run([], [before], None)
      case Answer(Orders(os)) =>
        if |os| == 0 then Run([], [before], None)
        else if os[|os| - 1].orderNumber == last then Run([], [before], None)
        else
          var rest := OrderLoop(resp[1..], os[|os| - 1].paidAt, os[|os| - 1].orderNumber);
          Run(os + rest.records, [before] + rest.cursors, rest.failure)
  }

  function OrderRun<D>(resp: seq<Fetch<OrderReply<D>>>, initialBefore: string): Run<Order<D>, string> {
    OrderLoop(resp, initialBefore, None)
  }

  /** The response carries orders whose last order number differs from `prev`:
      the loop appends it and goes on. */
  predicate Appends<D>(f: Fetch<OrderReply<D>>, prev: Option<string>) {
    && f.Answer? && f.body.Orders? && |f.body.orders| > 0
    && f.body.orders[|f.body.orders| - 1].orderNumber != prev
  }

  function LastOrderNumber<D>(f: Fetch<OrderReply<D>>): Option<string> {
    if f.Answer? && f.body.Orders? && |f.body.orders| > 0 then f.body.orders[|f.body.orders| - 1].orderNumber else None
  }

  function LastPaidAt<D>(f: Fetch<OrderReply<D>>): string
    requires f.Answer? && f.body.Orders? && |f.body.orders| > 0
  {
    f.body.orders[|f.body.orders| - 1].paidAt
  }

  /** The last order number the loop has seen before request `j`. */
  function PrevLast<D>(resp: seq<Fetch<OrderReply<D>>>, j: nat, last: Option<string>): Option<string>
    requires j <= |resp|
  {
    if j == 0 then last else LastOrderNumber(resp[j - 1])
  }

  function OrdersOf<D>(f: Fetch<OrderReply<D>>): seq<Order<D>> {
    if f.Answer? && f.body.Orders? then f.body.orders else []
  }

  function CollectedOrders<D>(resp: seq<Fetch<OrderReply<D>>>): seq<Order<D>> {
    if |resp| == 0 then [] else OrdersOf(resp[0]) + CollectedOrders(resp[1..])
  }

  lemma CollectedOrdersCons<D>(resp: seq<Fetch<OrderReply<D>>>, k: nat)
    requires 1 <= k <= |resp|
    ensures CollectedOrders(resp[..k]) == OrdersOf(resp[0]) + CollectedOrders(resp[1..][..k - 1])
  {
    assert resp[..k][1..] == resp[1..][..k - 1];
  }

  /** The pages an order-loop run walked past: every request before the last
      got a page the loop appended, and the next request carries that page's
      last `paidAt`. */
  predicate OrdersWalked<D>(resp: seq<Fetch<OrderReply<D>>>, cursors: seq<string>, last: Option<string>) {
    && |cursors| <= |resp| + 1
    && forall j :: 0 <= j < |cursors| - 1 ==>
         && Appends(resp[j], PrevLast(resp, j, last))
         && cursors[j + 1] == LastPaidAt(resp[j])
  }

  /** Walking past an appended first page, then past the pages `cursors`
      record from there. */
  lemma OrdersWalkedCons<D>(resp: seq<Fetch<OrderReply<D>>>, before: string, last: Option<string>, cursors: seq<string>)
    requires |resp| > 0 && Appends(resp[0], last)
    requires |cursors| >= 1 && cursors[0] == LastPaidAt(resp[0])
    requires OrdersWalked(resp[1..], cursors, LastOrderNumber(resp[0]))
    ensures OrdersWalked(resp, [before] + cursors, last)
  {
    var all := [before] + cursors;
    forall j | 0 <= j < |all| - 1
      ensures Appends(resp[j], PrevLast(resp, j, last))
      ensures all[j + 1] == LastPaidAt(resp[j])
    {
      if j > 0 {
        assert resp[j] == resp[1..][j - 1];
        assert PrevLast(resp, j, last) == PrevLast(resp[1..], j - 1, LastOrderNumber(resp[0]));
        assert all[j + 1] == cursors[j];
      }
    }
  }

  /** Complete description of an order-loop run. Every request but the last
      got a non-empty page whose last order number differs from the previous
      page's, and the next request carries that page's last `paidAt`. The
      records are exactly those pages' orders in order. The last request either
      threw (or had no response), which is the run's error, or got a page that
      ends the loop without error: no JSON object, a parse failure, no orders,
      or a repeated last order number, and that page is not appended. */
  ghost predicate OrderRunOf<D>(resp: seq<Fetch<OrderReply<D>>>, last: Option<string>, run: Run<Order<D>, string>) {
    var n := |run.cursors| - 1;
    && 0 <= n <= |resp|
    && OrdersWalked(resp, run.cursors, last)
    && run.records == CollectedOrders(resp[..n])
    && (n == |resp| ==> run.failure == Some(NoResponse))
    && (n < |resp| && resp[n].Throws? ==> run.failure == Some(resp[n].error))
    && (n < |resp| && resp[n].Answer? ==> run.failure.None? && !Appends(resp[n], PrevLast(resp, n, last)))
  }

  /** Every order-loop run is described by `OrderRunOf`. */
  lemma {:induction false} OrderLoopSpec<D>(resp: seq<Fetch<OrderReply<D>>>, before: string, last: Option<string>)
    ensures OrderRunOf(resp, last, OrderLoop(resp, before, last))
    decreases |resp|
  {
    if |resp| > 0 && Appends(resp[0], last) {
      var os := resp[0].body.orders;
      var tail := os[|os| - 1];
      OrderLoopSpec(resp[1..], tail.paidAt, tail.orderNumber);
      var rest := OrderLoop(resp[1..], tail.paidAt, tail.orderNumber);
      OrderRunCons(resp, before, last, rest);
    } else if |resp| > 0 {
      assert resp[..0] == [];
    }
  }

  /** The inductive step of `OrderLoopSpec`: an appended first page in front
      of the run over the remaining responses. */
  lemma OrderRunCons<D>(resp: seq<Fetch<OrderReply<D>>>, before: string, last: Option<string>, rest: Run<Order<D>, string>)
    requires |resp| > 0 && Appends(resp[0], last)
    requires |rest.cursors| >= 1 && rest.cursors[0] == LastPaidAt(resp[0])
    requires OrderRunOf(resp[1..], LastOrderNumber(resp[0]), rest)
    ensures OrderRunOf(resp, last, Run(OrdersOf(resp[0]) + rest.records, [before] + rest.cursors, rest.failure))
  {
    var run := Run(OrdersOf(resp[0]) + rest.records, [before] + rest.cursors, rest.failure);
    var n := |run.cursors| - 1;
    assert n == |rest.cursors|;
    OrdersWalkedCons(resp, before, last, rest.cursors);
    CollectedOrdersCons(resp, n);
    if n < |resp| {
      assert resp[n] == resp[1..][n - 1];
      assert PrevLast(resp, n, last) == PrevLast(resp[1..], n - 1, LastOrderNumber(resp[0]));
    }
  }

  /** No duplicate boundary page: consecutive appended pages end in different
      order numbers, and the first appended page's last order number is not
      `null`. */
  lemma OrderBoundariesDistinct<D>(resp: seq<Fetch<OrderReply<D>>>, initialBefore: string)
    ensures
      var n := |OrderRun(resp, initialBefore).cursors| - 1;
      && (n > 0 ==> LastOrderNumber(resp[0]) != None)
      && forall j :: 0 < j < n ==> LastOrderNumber(resp[j]) != LastOrderNumber(resp[j - 1])
  {
    OrderLoopSpec(resp, initialBefore, None);
  }

  // ================================================================ export rule

  datatype Source = CashbackIn | PaymentsOut | OrderHistory

  /** The file each driver downloads after a complete run. */
  function FileName(src: Source): string {
    match src
    case CashbackIn => "cashback_transactions_in.json"
    case PaymentsOut => "cashback_transactions_out.json"
    case OrderHistory => "shopback_order_history.json"
  }

  /** The file each driver downloads from its `catch` block: the normal name
      behind the prefix `partial_`. */
  function PartialFileName(src: Source): string {
    "partial_" + FileName(src)
  }

  datatype Download<R> = Download(fileName: string, records: seq<R>)

  /** What a driver leaves behind: the download it triggered, if any, and what
      it returned or rethrew; or `Waiting` when a request never settles, so the
      driver neither reaches its `catch` block nor returns. */
  datatype Outcome<R> =
    | Outcome(download: Option<Download<R>>, result: Result<seq<R>, FetchError>)
    | Waiting

  /** The code after each loop and its `catch` block. A complete run downloads
      everything under the normal name (the order driver skips an empty
      download and returns []); a run that threw downloads what it accumulated
      under the partial name, only if that is not empty, and rethrows the
      error; a run stuck on an unanswered request does neither. */
  function Finish<R, C>(src: Source, run: Run<R, C>): (o: Outcome<R>)
    ensures o.Waiting? <==> run.failure == Some(NoResponse)
    ensures run.failure.Some? && o.Outcome? ==>
      && o.result == Failure(run.failure.value)
      && (o.download.Some? <==> |run.records| > 0)
      && (o.download.Some? ==> o.download.value == Download(PartialFileName(src), run.records))
    ensures run.failure.None? ==>
      && o.Outcome?
      && o.result == Success(run.records)
      && (o.download.Some? <==> (src != OrderHistory || |run.records| > 0))
      && (o.download.Some? ==> o.download.value == Download(FileName(src), run.records))
  {
    match run.failure
    case Some(NoResponse) => Waiting
    case Some(e) =>
      Outcome(if |run.records| > 0 then Some(Download(PartialFileName(src), run.records)) else None, Failure(e))
    case None =>
      if src == OrderHistory && |run.records| == 0 then Outcome(None, Success([]))
      else Outcome(Some(Download(FileName(src), run.records)), Success(run.records))
  }

  function ExportCashback<R>(resp: seq<Fetch<CashbackBody<R>>>): Outcome<R> {
    Finish(CashbackIn, CashbackRun(resp))
  }

  function ExportPayments<R>(resp: seq<Fetch<PaymentBody<R>>>): Outcome<R> {
    Finish(PaymentsOut, PaymentRun(resp))
  }

  function ExportOrders<D>(resp: seq<Fetch<OrderReply<D>>>, initialBefore: string): Outcome<Order<D>> {
    Finish(OrderHistory, OrderRun(resp, initialBefore))
  }

  /** Partial data is never lost: when a token-chained export throws on request
      `k`, every request before it was answered, and the download holds exactly
      the records of those pages, under the partial name, unless there are none. */
  lemma TokenPartialExport<R>(src: Source, resp: seq<Fetch<TokenPage<R>>>)
    requires src != OrderHistory
    ensures
      var run := TokenLoop(resp, None, 0, 0, true);
      var o := Finish(src, run);
      var k := |run.cursors| - 1;
      o.Outcome? && o.result.Failure? ==>
        && (forall j :: 0 <= j < k ==> resp[j].Answer?)
        && k < |resp| && resp[k].Throws? && resp[k].error.Thrown?
        && o.download == (if |Collected(resp[..k])| > 0
                          then Some(Download("partial_" + FileName(src), Collected(resp[..k])))
                          else None)
  {
    TokenLoopPages(resp, None, 0, 0, true);
    TokenLoopEnd(resp, None, 0, 0, true);
  }

  /** The same rule for the order export: a run that threw downloads exactly the
      orders of the pages appended before the failing request. */
  lemma OrderPartialExport<D>(resp: seq<Fetch<OrderReply<D>>>, initialBefore: string)
    ensures
      var run := OrderRun(resp, initialBefore);
      var o := ExportOrders(resp, initialBefore);
      var k := |run.cursors| - 1;
      o.Outcome? && o.result.Failure? ==>
        && (forall j :: 0 <= j < k ==> Appends(resp[j], PrevLast(resp, j, None)))
        && k < |resp| && resp[k].Throws? && resp[k].error.Thrown?
        && o.download == (if |CollectedOrders(resp[..k])| > 0
                          then Some(Download("partial_" + FileName(OrderHistory), CollectedOrders(resp[..k])))
                          else None)
  {
    OrderLoopSpec(resp, initialBefore, None);
  }

  /** A complete order run with no orders downloads nothing and returns []. */
  lemma EmptyOrdersNoFile<D>(resp: seq<Fetch<OrderReply<D>>>, initialBefore: string)
    requires |resp| >= 1 && resp[0].Answer?
    requires resp[0].body.NoJsonObject? || resp[0].body.BadJson? || resp[0].body == Orders([])
    ensures ExportOrders(resp, initialBefore) == Outcome(None, Success([]))
  {
  }

  /** `startExport`: the three exports in sequence; an export that throws ends
      the session, and one that waits forever holds up the later ones, so in
      either case they never run. */
  datatype Session<A, B, D> = Session(cashback: Outcome<A>, payments: Option<Outcome<B>>, orders: Option<Outcome<Order<D>>>)

  function ExportAll<A, B, D>(cashbackResp: seq<Fetch<CashbackBody<A>>>, paymentResp: seq<Fetch<PaymentBody<B>>>,
                              orderResp: seq<Fetch<OrderReply<D>>>, initialBefore: string): (s: Session<A, B, D>)
    ensures s.cashback == ExportCashback(cashbackResp)
    ensures s.payments.Some? <==> s.cashback.Outcome? && s.cashback.result.Success?
    ensures s.payments.Some? ==> s.payments.value == ExportPayments(paymentResp)
    ensures s.orders.Some? <==> s.payments.Some? && s.payments.value.Outcome? && s.payments.value.result.Success?
    ensures s.orders.Some? ==> s.orders.value == ExportOrders(orderResp, initialBefore)
  {
    var c := ExportCashback(cashbackResp);
    if !(c.Outcome? && c.result.Success?) then Session(c, None, None)
    else
      var p := ExportPayments(paymentResp);
      if !(p.Outcome? && p.result.Success?) then Session(c, Some(p), None)
      else Session(c, Some(p), Some(ExportOrders(orderResp, initialBefore)))
  }
}
