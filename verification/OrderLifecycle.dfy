/**
 The status of an order: what the detail page offers next and what an update does
 (internal/utils/admin_invoices_helper.go:119-140, 163-207).

 LIKE is an arbitrary function of the database, of which only one thing is assumed
 where a theorem says so: on the six status names, which hold no wildcard, it is equality.
 */
module OrderLifecycle {
  import opened Wrappers

  const ORDER_PLACED := "Order Placed"
  const CANCELLED := "Cancelled"
  const ORDER_CONFIRMED := "Order Confirmed"
  const PROCESSING := "Order Processing"
  const SHIPPING := "Shipping"
  const DELIVERED := "Delivered"

  const DELIVERED_ID := 5
  const CANCELLED_ID := 6

  datatype Status = Status(id: int, name: string)

  datatype Invoice = Invoice(statusID: int, paid: bool, cancelReason: Option<string>)

  datatype Db = Db(like: (string, string) -> bool, statuses: seq<Status>)

  function Select(db: Db, patterns: seq<string>, rows: seq<Status>): seq<Status> {
    if rows == [] then []
    else (if exists k :: 0 <= k < |patterns| && db.like(rows[0].name, patterns[k]) then [rows[0]] else [])
         + Select(db, patterns, rows[1..])
  }

  function One(rows: seq<Status>): Option<Status> {
    if rows == [] then None else Some(rows[0])
  }

  /** The names the progression query asks for. */
  function Successors(name: string): seq<string> {
    if name == ORDER_PLACED then [name, CANCELLED, ORDER_CONFIRMED]
    else if name == ORDER_CONFIRMED then [name, PROCESSING]
    else if name == PROCESSING then [name, SHIPPING]
    else if name == SHIPPING then [name, DELIVERED]
    else [name]
  }

  function FetchStatusProgression(db: Db, status: Status): seq<Status> {
    Select(db, Successors(status.name), db.statuses)
  }

  // ---------------------------------------------------------------- one update

  /** The business rules of an update, on the loaded invoice. */
  function Updated(invoice: Invoice, target: int, reason: Option<string>): Invoice {
    if target == CANCELLED_ID then invoice.(statusID := CANCELLED_ID, cancelReason := reason)
    else if target == DELIVERED_ID then invoice.(statusID := DELIVERED_ID, paid := true)
    else if invoice.statusID != target then invoice.(statusID := invoice.statusID + 1)
    else invoice
  }

  datatype Request = Request(statusName: string, reason: Option<string>, emailFails: bool, writeFails: bool)

  /** The stored invoice after a request, and the error if there is one. */
  function AfterRequest(db: Db, stored: Option<Invoice>, q: Request): (Option<Invoice>, Result<Invoice, string>) {
    match One(Select(db, [q.statusName], db.statuses))
    case None => (stored, Err("Invoice status not found!"))
    case Some(status) =>
      if stored.None? then (stored, Err("Invoice not found!"))
      else if status.id == CANCELLED_ID && q.emailFails then (stored, Err("email"))
      else if q.writeFails then (stored, Err("write"))
      else (Some(Updated(stored.value, status.id, q.reason)), Ok(Updated(stored.value, status.id, q.reason)))
  }

  /** An invoice loaded into memory: its fields are assigned before it is written back. */
  class LoadedInvoice {
    var statusID: int
    var paid: bool
    var cancelReason: Option<string>

    constructor (row: Invoice)
      ensures Value() == row
    {
      statusID, paid, cancelReason := row.statusID, row.paid, row.cancelReason;
    }

    function Value(): Invoice
      reads this
    {
      Invoice(statusID, paid, cancelReason)
    }
  }

  /** The invoice table. */
  class InvoiceTable {
    const db: Db
    var rows: map<int, Invoice>

    constructor (db: Db, rows: map<int, Invoice>)
      ensures this.db == db && this.rows == rows
    {
      this.db, this.rows := db, rows;
    }

    function Stored(id: int): Option<Invoice>
      reads this
    {
      if id in rows then Some(rows[id]) else None
    }

    /** UpdateInvoiceStatus: only the named invoice can change, and only if nothing failed. */
    method UpdateInvoiceStatus(id: int, q: Request) returns (r: Result<Invoice, string>)
      modifies this
      ensures (Stored(id), r) == AfterRequest(db, old(Stored(id)), q)
      ensures r.Err? ==> rows == old(rows)
      ensures r.Ok? ==> rows == old(rows)[id := r.value]
    {
      var status := One(Select(db, [q.statusName], db.statuses));
      if status.None? {
        return Err("Invoice status not found!");
      }
      if id !in rows {
        return Err("Invoice not found!");
      }
      var invoice := new LoadedInvoice(rows[id]);
      var target := status.value.id;
      if invoice.statusID != target && target != CANCELLED_ID {
        invoice.statusID := invoice.statusID + 1;
      }
      if target == DELIVERED_ID {
        invoice.statusID := DELIVERED_ID;
        invoice.paid := true;
      }
      if target == CANCELLED_ID {
        invoice.statusID := CANCELLED_ID;
        invoice.cancelReason := q.reason;
        if q.emailFails {
          return Err("email");
        }
      }
      if q.writeFails {
        return Err("write");
      }
      rows := rows[id := invoice.Value()];
      return Ok(invoice.Value());
    }
  }

  // ---------------------------------------------------------------- the life cycle

  /** The six statuses carry the IDs 1 to 6, in life-cycle order and Cancelled last. */
  const STATUSES := [
    Status(1, ORDER_PLACED), Status(2, ORDER_CONFIRMED), Status(3, PROCESSING),
    Status(4, SHIPPING), Status(5, DELIVERED), Status(6, CANCELLED)]

  /** LIKE compares the status names literally. */
  ghost predicate Standard(db: Db) {
    && db.statuses == STATUSES
    && (forall i, j :: 0 <= i < 6 && 0 <= j < 6 ==> (db.like(STATUSES[i].name, STATUSES[j].name) <==> i == j))
  }

  predicate IsStatusID(id: int) {
    1 <= id <= 6
  }

  /** The arrows of the life cycle. */
  predicate Follows(from: int, to: int) {
    to == from || (1 <= from <= 4 && to == from + 1) || (from == 1 && to == CANCELLED_ID)
  }

  function Named(k: int): string
    requires IsStatusID(k)
  {
    STATUSES[k - 1].name
  }

  lemma StatusNamesDiffer(i: int, j: int)
    requires IsStatusID(i) && IsStatusID(j) && Named(i) == Named(j)
    ensures i == j
  {
    assert ORDER_PLACED[6] == 'P' && ORDER_CONFIRMED[6] == 'C' && PROCESSING[6] == 'P';
    assert ORDER_PLACED[7] == 'l' && PROCESSING[7] == 'r';
    assert ORDER_PLACED[0] == 'O' && ORDER_CONFIRMED[0] == 'O' && PROCESSING[0] == 'O';
    assert SHIPPING[0] == 'S' && DELIVERED[0] == 'D' && CANCELLED[0] == 'C';
  }

  ghost predicate Wanted(patterns: seq<string>, name: string) {
    exists p :: 0 <= p < |patterns| && patterns[p] == name
  }

  ghost predicate KnownNames(patterns: seq<string>) {
    forall p :: 0 <= p < |patterns| ==> exists k :: IsStatusID(k) && patterns[p] == Named(k)
  }

  /** On a standard database a query by names returns the rows with those names. */
  lemma {:induction false} SelectByName(db: Db, patterns: seq<string>, rows: seq<Status>, s: Status)
    requires Standard(db) && KnownNames(patterns)
    requires forall r :: r in rows ==> r in STATUSES
    requires s in STATUSES
    ensures s in Select(db, patterns, rows) <==> s in rows && Wanted(patterns, s.name)
  {
    if rows != [] {
      SelectByName(db, patterns, rows[1..], s);
      assert rows[0] in rows;
      var i :| 0 <= i < 6 && STATUSES[i] == rows[0];
      forall p | 0 <= p < |patterns|
        ensures db.like(rows[0].name, patterns[p]) <==> patterns[p] == rows[0].name
      {
        var k :| IsStatusID(k) && patterns[p] == Named(k);
        if patterns[p] == rows[0].name {
          StatusNamesDiffer(k, i + 1);
        }
      }
      assert rows == [rows[0]] + rows[1..];
    }
  }

  /** The target is one the detail page offers for the status the invoice is in. */
  ghost predicate Offered(db: Db, from: int, to: int)
    requires IsStatusID(from) && IsStatusID(to)
  {
    Status(to, Named(to)) in FetchStatusProgression(db, Status(from, Named(from)))
  }

  lemma {:induction false} SelectIsSubset(db: Db, patterns: seq<string>, rows: seq<Status>)
    ensures forall s :: s in Select(db, patterns, rows) ==> s in rows
  {
    if rows != [] {
      SelectIsSubset(db, patterns, rows[1..]);
    }
  }

  function SuccessorIDs(from: int): seq<int> {
    if from == 1 then [1, 6, 2] else if from <= 4 then [from, from + 1] else [from]
  }

  ghost predicate AreStatusIDs(ids: seq<int>) {
    forall i :: 0 <= i < |ids| ==> IsStatusID(ids[i])
  }

  function NamesOf(ids: seq<int>): seq<string>
    requires AreStatusIDs(ids)
  {
    seq(|ids|, i requires 0 <= i < |ids| => Named(ids[i]))
  }

  lemma NamesWanted(ids: seq<int>, to: int)
    requires AreStatusIDs(ids) && IsStatusID(to)
    ensures KnownNames(NamesOf(ids)) && (Wanted(NamesOf(ids), Named(to)) <==> to in ids)
  {
    var names := NamesOf(ids);
    forall p | 0 <= p < |names|
      ensures exists k :: IsStatusID(k) && names[p] == Named(k)
      ensures names[p] == Named(to) ==> ids[p] == to
    {
      assert names[p] == Named(ids[p]);
      if names[p] == Named(to) {
        StatusNamesDiffer(ids[p], to);
      }
    }
    if to in ids {
      var i :| 0 <= i < |ids| && ids[i] == to;
      assert names[i] == Named(to);
    }
  }

  lemma SuccessorsAreNamed(from: int)
    requires IsStatusID(from)
    ensures AreStatusIDs(SuccessorIDs(from)) && Successors(Named(from)) == NamesOf(SuccessorIDs(from))
  {
    forall j | IsStatusID(j) && Named(from) == Named(j)
      ensures from == j
    {
      StatusNamesDiffer(from, j);
    }
    assert Named(1) == ORDER_PLACED && Named(2) == ORDER_CONFIRMED && Named(3) == PROCESSING;
    assert Named(4) == SHIPPING && Named(5) == DELIVERED && Named(6) == CANCELLED;
    assert Successors(Named(from)) ==
           if from == 1 then [Named(1), Named(6), Named(2)]
           else if from <= 4 then [Named(from), Named(from + 1)]
           else [Named(from)];
  }

  lemma SuccessorsKnown(from: int, to: int)
    requires IsStatusID(from) && IsStatusID(to)
    ensures KnownNames(Successors(Named(from)))
    ensures Follows(from, to) <==> Wanted(Successors(Named(from)), Named(to))
  {
    SuccessorsAreNamed(from);
    NamesWanted(SuccessorIDs(from), to);
  }

  lemma OfferedIffWanted(db: Db, names: seq<string>, to: int)
    requires Standard(db) && IsStatusID(to) && KnownNames(names)
    ensures Status(to, Named(to)) in Select(db, names, db.statuses) <==> Wanted(names, Named(to))
  {
    assert STATUSES[to - 1] == Status(to, Named(to));
    SelectByName(db, names, STATUSES, Status(to, Named(to)));
  }

  /** The detail page offers exactly the arrows of the life cycle. */
  lemma OfferedIffFollows(db: Db, from: int, to: int)
    requires Standard(db) && IsStatusID(from) && IsStatusID(to)
    ensures Offered(db, from, to) <==> Follows(from, to)
  {
    SuccessorsKnown(from, to);
    OfferedIffWanted(db, Successors(Named(from)), to);
  }

  /** A request that names a status finds that status. */
  lemma NameFindsStatus(db: Db, k: int)
    requires Standard(db) && IsStatusID(k)
    ensures One(Select(db, [Named(k)], db.statuses)) == Some(Status(k, Named(k)))
  {
    var found := Select(db, [Named(k)], STATUSES);
    assert STATUSES[k - 1] == Status(k, Named(k));
    assert [Named(k)][0] == Named(k);
    SelectByName(db, [Named(k)], STATUSES, STATUSES[k - 1]);
    SelectIsSubset(db, [Named(k)], STATUSES);
    assert found[0] in found;
    var i :| 0 <= i < 6 && STATUSES[i] == found[0];
    SelectByName(db, [Named(k)], STATUSES, found[0]);
    StatusNamesDiffer(i + 1, k);
  }

  /** Without regard to what is offered: an update lands on its target exactly for these targets, and leaves the six statuses exactly here. */
  lemma LandsOnTargetIff(invoice: Invoice, target: int, reason: Option<string>)
    requires IsStatusID(invoice.statusID) && IsStatusID(target)
    ensures Updated(invoice, target, reason).statusID == target
            <==> target == invoice.statusID || target == invoice.statusID + 1 || target >= DELIVERED_ID
    ensures IsStatusID(Updated(invoice, target, reason).statusID)
            <==> invoice.statusID != CANCELLED_ID || target >= DELIVERED_ID
  {
  }

  // ---------------------------------------------------------------- what one request does

  lemma {:induction false} NothingSelected(db: Db, pattern: string, rows: seq<Status>)
    ensures Select(db, [pattern], rows) == [] <==> forall k :: 0 <= k < |rows| ==> !db.like(rows[k].name, pattern)
  {
    if rows != [] {
      NothingSelected(db, pattern, rows[1..]);
      assert [pattern][0] == pattern;
      assert (forall k :: 0 <= k < |rows| ==> !db.like(rows[k].name, pattern)) ==>
             forall k :: 0 <= k < |rows[1..]| ==> !db.like(rows[1..][k].name, pattern) by {
        assert forall k :: 0 <= k < |rows[1..]| ==> rows[1..][k] == rows[k + 1];
      }
      assert forall k :: 1 <= k < |rows| ==> rows[k] == rows[1..][k - 1];
    }
  }

  lemma {:induction false} FirstSelected(db: Db, pattern: string, rows: seq<Status>, k: nat)
    requires k < |rows| && db.like(rows[k].name, pattern)
    requires forall j :: 0 <= j < k ==> !db.like(rows[j].name, pattern)
    ensures One(Select(db, [pattern], rows)) == Some(rows[k])
  {
    assert [pattern][0] == pattern;
    if k > 0 {
      assert !db.like(rows[0].name, pattern);
      FirstSelected(db, pattern, rows[1..], k - 1);
    }
  }

  /** A request fails exactly if no status has the name, the invoice is missing, the cancel email fails or the write fails. */
  lemma RequestFailsIff(db: Db, stored: Option<Invoice>, q: Request)
    ensures var (after, r) := AfterRequest(db, stored, q);
            && (r.Err? ==> after == stored)
            && (r.Ok? ==> after == Some(r.value))
            && ((forall k :: 0 <= k < |db.statuses| ==> !db.like(db.statuses[k].name, q.statusName)) ==>
                  r == Err("Invoice status not found!"))
            && (forall k :: 0 <= k < |db.statuses| && db.like(db.statuses[k].name, q.statusName)
                            && (forall j :: 0 <= j < k ==> !db.like(db.statuses[j].name, q.statusName)) ==>
                  && (r.Err? <==> stored.None? || (db.statuses[k].id == 6 && q.emailFails) || q.writeFails)
                  && (stored.None? ==> r == Err("Invoice not found!")))
  {
    NothingSelected(db, q.statusName, db.statuses);
    forall k | 0 <= k < |db.statuses| && db.like(db.statuses[k].name, q.statusName)
               && (forall j :: 0 <= j < k ==> !db.like(db.statuses[j].name, q.statusName))
      ensures AfterRequest(db, stored, q).1.Err? <==>
              stored.None? || (db.statuses[k].id == 6 && q.emailFails) || q.writeFails
      ensures stored.None? ==> AfterRequest(db, stored, q).1 == Err("Invoice not found!")
    {
      FirstSelected(db, q.statusName, db.statuses, k);
    }
  }

  /**
   What a successful request leaves, for any status found: cancellation stores its reason and
   nothing else touches the reason; delivery marks the invoice paid and nothing else touches
   the flag; and a status that is neither reached nor already held moves the invoice on by one.
   */
  lemma RequestEffect(db: Db, invoice: Invoice, q: Request, k: nat)
    requires k < |db.statuses| && db.like(db.statuses[k].name, q.statusName)
    requires forall j :: 0 <= j < k ==> !db.like(db.statuses[j].name, q.statusName)
    requires AfterRequest(db, Some(invoice), q).1.Ok?
    ensures var target, next := db.statuses[k].id, AfterRequest(db, Some(invoice), q).1.value;
            && next.cancelReason == (if target == 6 then q.reason else invoice.cancelReason)
            && next.paid == (invoice.paid || target == 5)
            && next.statusID == (if target == 5 || target == 6 || target == invoice.statusID then target else invoice.statusID + 1)
  {
    FirstSelected(db, q.statusName, db.statuses, k);
  }

  // ---------------------------------------------------------------- runs

  /** The request asks for a status the detail page offers. */
  ghost predicate Legal(db: Db, invoice: Invoice, q: Request) {
    IsStatusID(invoice.statusID) && exists k :: IsStatusID(k) && q.statusName == Named(k) && Offered(db, invoice.statusID, k)
  }

  function Step(db: Db, invoice: Invoice, q: Request): Invoice {
    var stored := AfterRequest(db, Some(invoice), q).0;
    if stored.Some? then stored.value else invoice
  }

  function Run(db: Db, invoice: Invoice, requests: seq<Request>): Invoice
    decreases |requests|
  {
    if requests == [] then invoice else Run(db, Step(db, invoice, requests[0]), requests[1..])
  }

  ghost predicate LegalRun(db: Db, invoice: Invoice, requests: seq<Request>)
    decreases |requests|
  {
    requests != [] ==> Legal(db, invoice, requests[0]) && LegalRun(db, Step(db, invoice, requests[0]), requests[1..])
  }

  /** How many requests of the run change the status. */
  function Changes(db: Db, invoice: Invoice, requests: seq<Request>): nat
    decreases |requests|
  {
    if requests == [] then 0
    else
      var next := Step(db, invoice, requests[0]);
      (if next.statusID != invoice.statusID then 1 else 0) + Changes(db, next, requests[1..])
  }

  /** The request asks for the cancellation and succeeds. */
  predicate Cancels(db: Db, invoice: Invoice, q: Request) {
    q.statusName == CANCELLED && AfterRequest(db, Some(invoice), q).1.Ok?
  }

  /** The invoice before the n-th request. */
  function Before(db: Db, invoice: Invoice, requests: seq<Request>, n: nat): Invoice
    requires n <= |requests|
  {
    if n == 0 then invoice
    else
      var before := Before(db, invoice, requests, n - 1);
      Step(db, before, requests[n - 1])
  }

  /** The n-th request is the last that cancels. */
  ghost predicate LastCancel(db: Db, invoice: Invoice, requests: seq<Request>, n: nat) {
    && n < |requests| && Cancels(db, Before(db, invoice, requests, n), requests[n])
    && forall k :: n < k < |requests| ==> !Cancels(db, Before(db, invoice, requests, k), requests[k])
  }

  ghost predicate NeverCancels(db: Db, invoice: Invoice, requests: seq<Request>) {
    forall k :: 0 <= k < |requests| ==> !Cancels(db, Before(db, invoice, requests, k), requests[k])
  }

  lemma {:induction false} BeforeRest(db: Db, invoice: Invoice, requests: seq<Request>, n: nat)
    requires n < |requests|
    ensures Before(db, Step(db, invoice, requests[0]), requests[1..], n) == Before(db, invoice, requests, n + 1)
  {
    if n > 0 {
      BeforeRest(db, invoice, requests, n - 1);
      assert requests[1..][n - 1] == requests[n];
    } else {
      assert Before(db, invoice, requests, 1) == Step(db, Before(db, invoice, requests, 0), requests[0]);
    }
  }

  /** How many changes of status can still come. */
  function Remaining(id: int): int {
    if id == CANCELLED_ID then 0 else 5 - id
  }

  /**
   One legal request: it lands exactly on the status asked for, or, if the email or the
   write fails, the stored invoice is unchanged; and the paid flag is set by delivery only.
   */
  lemma LegalStep(db: Db, invoice: Invoice, q: Request)
    requires Standard(db) && Legal(db, invoice, q)
    ensures var next := Step(db, invoice, q);
            && IsStatusID(next.statusID) && Follows(invoice.statusID, next.statusID)
            && (AfterRequest(db, Some(invoice), q).1.Ok? ==> q.statusName == Named(next.statusID))
            && (AfterRequest(db, Some(invoice), q).1.Err? ==> next == invoice)
            && (AfterRequest(db, Some(invoice), q).1.Err? <==> q.writeFails || (q.statusName == CANCELLED && q.emailFails))
            && next.cancelReason == (if Cancels(db, invoice, q) then q.reason else invoice.cancelReason)
            && (next.paid <==> invoice.paid || (AfterRequest(db, Some(invoice), q).1.Ok? && next.statusID == DELIVERED_ID))
            && (q.statusName == CANCELLED && q.emailFails ==> next == invoice)
  {
    var k :| IsStatusID(k) && q.statusName == Named(k) && Offered(db, invoice.statusID, k);
    OfferedIffFollows(db, invoice.statusID, k);
    NameFindsStatus(db, k);
    CancelledIsSix(k);
    LegalTarget(db, invoice, q, k);
  }

  lemma CancelledIsSix(k: int)
    requires IsStatusID(k)
    ensures Named(k) == CANCELLED <==> k == CANCELLED_ID
  {
    if Named(k) == CANCELLED {
      StatusNamesDiffer(k, CANCELLED_ID);
    }
  }

  /** A request that finds an offered target k. */
  lemma LegalTarget(db: Db, invoice: Invoice, q: Request, k: int)
    requires IsStatusID(invoice.statusID) && IsStatusID(k) && Follows(invoice.statusID, k)
    requires One(Select(db, [q.statusName], db.statuses)) == Some(Status(k, Named(k)))
    ensures var (next, r) := (Step(db, invoice, q), AfterRequest(db, Some(invoice), q).1);
            && (r.Err? <==> q.writeFails || (k == CANCELLED_ID && q.emailFails))
            && (if r.Err? then next == invoice
                else next == Invoice(k, invoice.paid || k == DELIVERED_ID,
                                     if k == CANCELLED_ID then q.reason else invoice.cancelReason))
  {
  }

  /**
   Whole runs of legal requests: at most four of them change the status, Delivered and
   Cancelled are final, the paid flag never turns back to false, and an invoice that is
   paid if delivered at the start is paid if delivered at the end.
   */
  lemma {:induction false} LegalRuns(db: Db, invoice: Invoice, requests: seq<Request>)
    requires Standard(db) && IsStatusID(invoice.statusID) && LegalRun(db, invoice, requests)
    ensures var end := Run(db, invoice, requests);
            && IsStatusID(end.statusID)
            && Changes(db, invoice, requests) <= Remaining(invoice.statusID) - Remaining(end.statusID)
            && Changes(db, invoice, requests) <= 4
            && (invoice.statusID >= DELIVERED_ID ==> end.statusID == invoice.statusID)
            && (invoice.paid ==> end.paid)
            && ((invoice.statusID == DELIVERED_ID ==> invoice.paid) ==> end.statusID == DELIVERED_ID ==> end.paid)
    decreases |requests|
  {
    if requests != [] {
      LegalStep(db, invoice, requests[0]);
      LegalRuns(db, Step(db, invoice, requests[0]), requests[1..]);
    }
  }

  lemma RestNeverCancels(db: Db, invoice: Invoice, requests: seq<Request>)
    requires requests != [] && forall k :: 0 < k < |requests| ==> !Cancels(db, Before(db, invoice, requests, k), requests[k])
    ensures NeverCancels(db, Step(db, invoice, requests[0]), requests[1..])
  {
    forall k | 0 <= k < |requests[1..]|
      ensures !Cancels(db, Before(db, Step(db, invoice, requests[0]), requests[1..], k), requests[1..][k])
    {
      BeforeRest(db, invoice, requests, k);
      assert requests[1..][k] == requests[k + 1];
    }
  }

  lemma RestLastCancel(db: Db, invoice: Invoice, requests: seq<Request>, n: nat)
    requires n > 0 && LastCancel(db, invoice, requests, n)
    ensures LastCancel(db, Step(db, invoice, requests[0]), requests[1..], n - 1)
  {
    forall k | 0 <= k < |requests[1..]|
      ensures Before(db, Step(db, invoice, requests[0]), requests[1..], k) == Before(db, invoice, requests, k + 1)
      ensures requests[1..][k] == requests[k + 1]
    {
      BeforeRest(db, invoice, requests, k);
    }
  }

  lemma {:induction false} ReasonStays(db: Db, invoice: Invoice, requests: seq<Request>)
    requires Standard(db) && IsStatusID(invoice.statusID) && LegalRun(db, invoice, requests)
    requires NeverCancels(db, invoice, requests)
    ensures Run(db, invoice, requests).cancelReason == invoice.cancelReason
    decreases |requests|
  {
    if requests != [] {
      LegalStep(db, invoice, requests[0]);
      assert Before(db, invoice, requests, 0) == invoice;
      RestNeverCancels(db, invoice, requests);
      ReasonStays(db, Step(db, invoice, requests[0]), requests[1..]);
    }
  }

  lemma FirstIsLastCancel(db: Db, invoice: Invoice, requests: seq<Request>)
    requires Standard(db) && IsStatusID(invoice.statusID) && LegalRun(db, invoice, requests)
    requires LastCancel(db, invoice, requests, 0)
    ensures Run(db, invoice, requests).cancelReason == requests[0].reason
  {
    LegalStep(db, invoice, requests[0]);
    assert Before(db, invoice, requests, 0) == invoice;
    RestNeverCancels(db, invoice, requests);
    ReasonStays(db, Step(db, invoice, requests[0]), requests[1..]);
  }

  lemma {:induction false} LastCancelSets(db: Db, invoice: Invoice, requests: seq<Request>, n: nat)
    requires Standard(db) && IsStatusID(invoice.statusID) && LegalRun(db, invoice, requests)
    requires LastCancel(db, invoice, requests, n)
    ensures Run(db, invoice, requests).cancelReason == requests[n].reason
    decreases |requests|
  {
    if n == 0 {
      FirstIsLastCancel(db, invoice, requests);
    } else {
      LegalStep(db, invoice, requests[0]);
      RestLastCancel(db, invoice, requests, n);
      LastCancelSets(db, Step(db, invoice, requests[0]), requests[1..], n - 1);
    }
  }

  /**
   Over a legal run the stored reason is that of the last successful cancellation (a cancelled
   invoice may be cancelled again), or the one at the start if there is none.
   */
  lemma ReasonOfRun(db: Db, invoice: Invoice, requests: seq<Request>, n: nat)
    requires Standard(db) && IsStatusID(invoice.statusID) && LegalRun(db, invoice, requests)
    ensures NeverCancels(db, invoice, requests) ==> Run(db, invoice, requests).cancelReason == invoice.cancelReason
    ensures LastCancel(db, invoice, requests, n) ==> Run(db, invoice, requests).cancelReason == requests[n].reason
  {
    if NeverCancels(db, invoice, requests) {
      ReasonStays(db, invoice, requests);
    }
    if LastCancel(db, invoice, requests, n) {
      LastCancelSets(db, invoice, requests, n);
    }
  }
}
