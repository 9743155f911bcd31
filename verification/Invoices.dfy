/**
  billing.service.ts and stripe.service.ts: invoice numbers are counted, stamped
  with the year and inserted, with awaits between; refunds never remove a row.
 */
module Invoices {
  import opened Wrappers
  import opened Sets
  import opened InvoiceNumbers

  datatype Status = Paid | Void

  datatype Invoice = Invoice(number: string, status: Status)

  /** A paid-invoice webhook between two awaits: the count is in, or the number is made. */
  datatype Pending = Counted(count: nat) | Stamped(count: nat, number: string)

  /** Rows in order of insertion. */
  datatype State = State(invoices: seq<Invoice>, pending: map<int, Pending>, year: nat, nextId: int)

  function Empty(year: nat): State { State([], map[], year, 0) }

  datatype Step =
    | Count
    | Stamp(request: int)
    | Insert(request: int)
    | Fail(request: int)
    | Refund(index: int)
    | NewYear

  predicate Taken(invoices: seq<Invoice>, number: string) {
    exists i :: 0 <= i < |invoices| && invoices[i].number == number
  }

  function AfterCount(s: State): State {
    s.(pending := s.pending[s.nextId := Counted(|s.invoices|)], nextId := s.nextId + 1)
  }

  function AfterStamp(s: State, request: int): State {
    if request !in s.pending || !s.pending[request].Counted? then s
    else
      var n := s.pending[request].count;
      s.(pending := s.pending[request := Stamped(n, Number(s.year, n + 1))])
  }

  /** The unique index on the number refuses a repeat. */
  function AfterInsert(s: State, request: int): State {
    if request !in s.pending || !s.pending[request].Stamped? then s
    else
      var number := s.pending[request].number;
      var done := s.(pending := s.pending - {request});
      if Taken(s.invoices, number) then done else done.(invoices := s.invoices + [Invoice(number, Paid)])
  }

  function AfterRefund(s: State, index: int): State {
    if 0 <= index < |s.invoices| then s.(invoices := s.invoices[index := s.invoices[index].(status := Void)]) else s
  }

  function Next(s: State, step: Step): State {
    match step
    case Count => AfterCount(s)
    case Stamp(request) => AfterStamp(s, request)
    case Insert(request) => AfterInsert(s, request)
    case Fail(request) => s.(pending := s.pending - {request})
    case Refund(index) => AfterRefund(s, index)
    case NewYear => s.(year := s.year + 1)
  }

  function Run(s: State, steps: seq<Step>): State
    decreases steps
  {
    if steps == [] then s else Run(Next(s, steps[0]), steps[1..])
  }

  /** BillingService and StripeService, as one object over the invoices table. */
  class Billing {
    var invoices: seq<Invoice>
    var pending: map<int, Pending>
    var year: nat
    var nextId: int

    function Db(): State
      reads this
    {
      State(invoices, pending, year, nextId)
    }

    constructor (year: nat)
      ensures Db() == Empty(year)
    {
      invoices, pending, this.year, nextId := [], map[], year, 0;
    }

    method BeginCount() returns (request: int)
      modifies this`pending, this`nextId
      ensures Db() == AfterCount(old(Db())) && request == old(nextId)
      ensures pending == old(pending)[request := Counted(|invoices|)]
    {
      request := nextId;
      pending := pending[request := Counted(|invoices|)];
      nextId := nextId + 1;
    }

    /** createInvoiceNumber past its await: the year is read, the count padded. */
    method CreateInvoiceNumber(request: int) returns (number: string)
      requires request in pending && pending[request].Counted?
      modifies this`pending
      ensures Db() == AfterStamp(old(Db()), request)
      ensures pending == old(pending)[request := Stamped(old(pending[request].count), number)]
      ensures number == Number(year, old(pending[request].count) + 1)
    {
      var count := pending[request].count;
      var suffix := Digits(count + 1);
      while |suffix| < WIDTH
        invariant PadStart(suffix, WIDTH, '0') == PadStart(Digits(count + 1), WIDTH, '0')
        decreases WIDTH - |suffix|
      {
        suffix := "0" + suffix;
      }
      number := "ELY-" + Digits(year) + "-" + suffix;
      pending := pending[request := Stamped(count, number)];
    }

    method InsertInvoice(request: int) returns (inserted: bool)
      requires request in pending && pending[request].Stamped?
      modifies this`pending, this`invoices
      ensures Db() == AfterInsert(old(Db()), request)
      ensures inserted <==> forall i :: 0 <= i < |old(invoices)| ==>
                              old(invoices)[i].number != old(pending[request].number)
      ensures invoices == old(invoices) + if inserted then [Invoice(old(pending[request].number), Paid)] else []
      ensures pending == old(pending) - {request}
    {
      var number := pending[request].number;
      pending := pending - {request};
      inserted := !Taken(invoices, number);
      if inserted {
        invoices := invoices + [Invoice(number, Paid)];
      }
    }

    /** onInvoicePaid for a subscription that exists, with nothing in between. */
    method OnInvoicePaid() returns (inserted: bool)
      requires Inv(Db())
      modifies this
      ensures inserted
      ensures Careful(old(Db()), Count) ==> Inv(Db())
      ensures invoices == old(invoices) + [Invoice(Number(year, |old(invoices)| + 1), Paid)]
      ensures pending == old(pending) && year == old(year)
    {
      NextNumberFree(Db(), year);
      if Careful(Db(), Count) { WebhookKeeps(Db()); }
      var request := BeginCount();
      var number := CreateInvoiceNumber(request);
      inserted := InsertInvoice(request);
      assert pending == old(pending) by { assert request !in old(pending); }
    }

    /** refundInvoice: the row stays, with its number. */
    method RefundInvoice(index: int) returns (found: bool)
      modifies this`invoices
      ensures Db() == AfterRefund(old(Db()), index)
      ensures found <==> 0 <= index < |invoices|
      ensures invoices == if found then old(invoices)[index := Invoice(old(invoices)[index].number, Void)]
                          else old(invoices)
    {
      found := 0 <= index < |invoices|;
      if found {
        invoices := invoices[index := invoices[index].(status := Void)];
      }
    }
  }

  // ---------------------------------------------------------------------
  // The invariant
  // ---------------------------------------------------------------------

  /** The number of the row at index `i`, in a year. */
  predicate IsNumber(number: string, year: nat, i: nat) { number == Number(year, i + 1) }

  /** The row at `i` is numbered `i + 1`, in some year up to `year`. */
  ghost predicate NumberedAt(invoices: seq<Invoice>, i: int, year: nat) {
    0 <= i < |invoices| && exists y: nat :: y <= year && IsNumber(invoices[i].number, y, i)
  }

  ghost predicate AllNumbered(invoices: seq<Invoice>, year: nat) {
    forall i {:trigger invoices[i]} :: 0 <= i < |invoices| ==> NumberedAt(invoices, i, year)
  }

  /** A count whose place has been taken since. */
  predicate Stale(invoices: seq<Invoice>, p: Pending) { p.count < |invoices| }

  /**
    What a pending request holds: the count of all rows, with the next number of
    some year up to this one if it has been made; or a count whose place was taken
    by the very number it has or would get.
   */
  ghost predicate PendingOk(invoices: seq<Invoice>, p: Pending, year: nat) {
    && p.count <= |invoices|
    && if Stale(invoices, p) then invoices[p.count].number == if p.Stamped? then p.number else Number(year, p.count + 1)
       else p.Stamped? ==> exists y: nat :: y <= year && IsNumber(p.number, y, p.count)
  }

  /** Two requests for the same free place hold, or would get, the same number. */
  predicate Agree(invoices: seq<Invoice>, p: Pending, q: Pending, year: nat) {
    !Stale(invoices, p) && !Stale(invoices, q) && p.Stamped? ==>
      p.number == if q.Stamped? then q.number else Number(year, p.count + 1)
  }

  ghost predicate AllPendingOk(invoices: seq<Invoice>, pending: map<int, Pending>, year: nat) {
    forall r :: r in pending ==> PendingOk(invoices, pending[r], year)
  }

  ghost predicate AllAgree(invoices: seq<Invoice>, pending: map<int, Pending>, year: nat) {
    forall r, t :: r in pending && t in pending ==> Agree(invoices, pending[r], pending[t], year)
  }

  ghost predicate Inv(s: State) {
    && AllNumbered(s.invoices, s.year) && AllPendingOk(s.invoices, s.pending, s.year)
    && AllAgree(s.invoices, s.pending, s.year)
    && forall r :: r in s.pending ==> r < s.nextId
  }

  /** A request that holds the next place's number of an earlier year. */
  predicate HoldsOldNumber(s: State, r: int) {
    && r in s.pending && s.pending[r].Stamped? && !Stale(s.invoices, s.pending[r])
    && s.pending[r].number != Number(s.year, s.pending[r].count + 1)
  }

  /** Two requests for the next place, one with its number made and the other without. */
  predicate Split(s: State, r: int, t: int) {
    && r in s.pending && t in s.pending && s.pending[r].Stamped? && s.pending[t].Counted?
    && !Stale(s.invoices, s.pending[r]) && !Stale(s.invoices, s.pending[t])
  }

  /**
    When a webhook may start counting: no other holds an earlier year's number.
    When a year may pass: no request without a number is stale, and none is next
    to one that has its number.
   */
  ghost predicate Careful(s: State, step: Step) {
    && (step.Count? ==> forall r :: !HoldsOldNumber(s, r))
    && (step.NewYear? ==>
          && (forall r :: r in s.pending && s.pending[r].Counted? ==> !Stale(s.invoices, s.pending[r]))
          && (forall r, t :: !Split(s, r, t)))
  }

  ghost predicate CarefulRun(s: State, steps: seq<Step>)
    decreases steps
  {
    steps == [] || (Careful(s, steps[0]) && CarefulRun(Next(s, steps[0]), steps[1..]))
  }

  /** The next number is free, whatever the year. */
  lemma NextNumberFree(s: State, year: nat)
    requires AllNumbered(s.invoices, s.year)
    ensures !Taken(s.invoices, Number(year, |s.invoices| + 1))
  {
    forall i | 0 <= i < |s.invoices| ensures s.invoices[i].number != Number(year, |s.invoices| + 1) {
      var y: nat :| y <= s.year && IsNumber(s.invoices[i].number, y, i);
      NumberInjective(y, i + 1, year, |s.invoices| + 1);
    }
  }

  lemma Inserted(invoices: seq<Invoice>, number: string, y: nat, year: nat)
    requires AllNumbered(invoices, year) && y <= year && IsNumber(number, y, |invoices|)
    ensures AllNumbered(invoices + [Invoice(number, Paid)], year)
  {
    var longer := invoices + [Invoice(number, Paid)];
    forall i | 0 <= i < |longer| ensures NumberedAt(longer, i, year) {
      if i < |invoices| {
        var z: nat :| z <= year && IsNumber(invoices[i].number, z, i);
        assert IsNumber(longer[i].number, z, i);
      } else {
        assert IsNumber(longer[i].number, y, i);
      }
    }
  }

  /** An insert takes the next place with a number that is free, or is refused because its place is taken. */
  lemma InsertKeeps(s: State, request: int)
    requires Inv(s) && request in s.pending && s.pending[request].Stamped?
    ensures Inv(AfterInsert(s, request))
    ensures Taken(s.invoices, s.pending[request].number) <==> Stale(s.invoices, s.pending[request])
  {
    var p, n := s.pending[request], |s.invoices|;
    assert PendingOk(s.invoices, p, s.year);
    if Stale(s.invoices, p) {
      assert s.invoices[p.count].number == p.number;
    } else {
      var y: nat :| y <= s.year && IsNumber(p.number, y, p.count);
      NextNumberFree(s, y);
      Inserted(s.invoices, p.number, y, s.year);
      var invoices := s.invoices + [Invoice(p.number, Paid)];
      forall r | r in s.pending ensures PendingOk(invoices, s.pending[r], s.year) {
        assert PendingOk(s.invoices, s.pending[r], s.year) && Agree(s.invoices, p, s.pending[r], s.year);
      }
      forall r, t | r in s.pending && t in s.pending ensures Agree(invoices, s.pending[r], s.pending[t], s.year) {
        assert PendingOk(s.invoices, s.pending[r], s.year);
      }
    }
  }

  lemma RefundNumbered(invoices: seq<Invoice>, index: int, year: nat)
    requires AllNumbered(invoices, year) && 0 <= index < |invoices|
    ensures AllNumbered(invoices[index := invoices[index].(status := Void)], year)
  {
    var voided := invoices[index := invoices[index].(status := Void)];
    forall i | 0 <= i < |invoices| ensures NumberedAt(voided, i, year) {
      var y: nat :| y <= year && IsNumber(invoices[i].number, y, i);
      assert IsNumber(voided[i].number, y, i);
    }
  }

  lemma RefundKeeps(s: State, index: int)
    requires Inv(s)
    ensures Inv(AfterRefund(s, index))
  {
    if 0 <= index < |s.invoices| {
      RefundNumbered(s.invoices, index, s.year);
      forall r | r in s.pending ensures PendingOk(AfterRefund(s, index).invoices, s.pending[r], s.year) {
        assert PendingOk(s.invoices, s.pending[r], s.year);
      }
    }
  }

  lemma LaterYear(invoices: seq<Invoice>, year: nat, later: nat)
    requires AllNumbered(invoices, year) && year <= later
    ensures AllNumbered(invoices, later)
  {
    forall i | 0 <= i < |invoices| ensures NumberedAt(invoices, i, later) {
      var number := invoices[i].number;
      var y: nat :| y <= year && IsNumber(number, y, i);
      assert IsNumber(invoices[i].number, y, i);
    }
  }

  lemma NewYearKeeps(s: State)
    requires Inv(s) && Careful(s, NewYear)
    ensures Inv(Next(s, NewYear))
  {
    LaterYear(s.invoices, s.year, s.year + 1);
    forall r | r in s.pending ensures PendingOk(s.invoices, s.pending[r], s.year + 1) {
      assert PendingOk(s.invoices, s.pending[r], s.year);
      if s.pending[r].Stamped? && !Stale(s.invoices, s.pending[r]) {
        var y: nat :| y <= s.year && IsNumber(s.pending[r].number, y, s.pending[r].count);
        assert y <= s.year + 1 && IsNumber(s.pending[r].number, y, s.pending[r].count);
      }
    }
    forall r, t | r in s.pending && t in s.pending ensures Agree(s.invoices, s.pending[r], s.pending[t], s.year + 1) {
      assert Agree(s.invoices, s.pending[r], s.pending[t], s.year) && !Split(s, r, t);
    }
  }

  lemma CountKeeps(s: State)
    requires Inv(s) && Careful(s, Count)
    ensures Inv(AfterCount(s))
  {
    var s' := AfterCount(s);
    forall r | r in s.pending ensures Agree(s.invoices, s.pending[r], s'.pending[s.nextId], s.year) {
      assert PendingOk(s.invoices, s.pending[r], s.year) && !HoldsOldNumber(s, r);
    }
  }

  lemma StampKeeps(s: State, request: int)
    requires Inv(s)
    ensures Inv(AfterStamp(s, request))
  {
    if request in s.pending && s.pending[request].Counted? {
      var s' := AfterStamp(s, request);
      var p := s'.pending[request];
      assert PendingOk(s.invoices, s.pending[request], s.year) && IsNumber(p.number, s.year, p.count);
      forall r | r in s.pending && r != request
        ensures Agree(s.invoices, s.pending[r], p, s.year) && Agree(s.invoices, p, s.pending[r], s.year)
      {
        assert Agree(s.invoices, s.pending[r], s.pending[request], s.year);
        assert PendingOk(s.invoices, s.pending[r], s.year);
      }
    }
  }

  lemma StepKeeps(s: State, step: Step)
    requires Inv(s) && Careful(s, step)
    ensures Inv(Next(s, step))
  {
    match step
    case Count => CountKeeps(s);
    case Stamp(request) => StampKeeps(s, request);
    case Insert(request) =>
      if request in s.pending && s.pending[request].Stamped? { InsertKeeps(s, request); }
    case Refund(index) => RefundKeeps(s, index);
    case NewYear => NewYearKeeps(s);
    case Fail(_) =>
  }

  lemma {:induction false} RunKeeps(s: State, steps: seq<Step>)
    requires Inv(s) && CarefulRun(s, steps)
    ensures Inv(Run(s, steps))
    decreases steps
  {
    if steps != [] {
      StepKeeps(s, steps[0]);
      RunKeeps(Next(s, steps[0]), steps[1..]);
    }
  }

  /** A webhook that failed inserts nothing any more, and no other webhook is touched. */
  lemma FailedInsertsNothing(s: State, request: int)
    requires request in s.pending
    ensures var s' := Next(s, Fail(request));
            && s'.invoices == s.invoices && s'.year == s.year && request !in s'.pending
            && Next(s', Stamp(request)) == s' && Next(s', Insert(request)) == s'
            && forall r :: r != request ==> (r in s'.pending <==> r in s.pending)
                                            && (r in s.pending ==> s'.pending[r] == s.pending[r])
  {
    var s' := Next(s, Fail(request));
    forall r | r != request ensures r in s'.pending <==> r in s.pending {}
  }

  /** An undisturbed webhook. */
  lemma WebhookKeeps(s: State)
    requires Inv(s) && Careful(s, Count)
    ensures Inv(AfterInsert(AfterStamp(AfterCount(s), s.nextId), s.nextId))
  {
    CountKeeps(s);
    StampKeeps(AfterCount(s), s.nextId);
    InsertKeeps(AfterStamp(AfterCount(s), s.nextId), s.nextId);
  }

  // ---------------------------------------------------------------------
  // What the numbers say
  // ---------------------------------------------------------------------

  /** The k-th invoice's suffix reads back as k. */
  predicate InOrder(invoices: seq<Invoice>) {
    forall i :: 0 <= i < |invoices| ==> Suffix(invoices[i].number) == i + 1
  }

  predicate Distinct(invoices: seq<Invoice>) {
    forall i, j :: 0 <= i < j < |invoices| ==> invoices[i].number != invoices[j].number
  }

  lemma NumberedInOrder(invoices: seq<Invoice>, year: nat)
    requires AllNumbered(invoices, year)
    ensures InOrder(invoices)
  {
    forall i | 0 <= i < |invoices| ensures Suffix(invoices[i].number) == i + 1 {
      var y: nat :| y <= year && IsNumber(invoices[i].number, y, i);
      SuffixReadsBack(y, i + 1);
    }
  }

  /** Over any careful run, however webhooks interleave, the k-th invoice reads back as k, and no number repeats. */
  lemma InvoicesInOrder(year: nat, steps: seq<Step>)
    requires CarefulRun(Empty(year), steps)
    ensures var s := Run(Empty(year), steps); InOrder(s.invoices) && Distinct(s.invoices)
  {
    RunKeeps(Empty(year), steps);
    var s := Run(Empty(year), steps);
    NumberedInOrder(s.invoices, s.year);
  }

  lemma {:induction false} DistinctAlways(s: State, steps: seq<Step>)
    requires Distinct(s.invoices)
    ensures Distinct(Run(s, steps).invoices)
    decreases steps
  {
    if steps != [] { DistinctAlways(Next(s, steps[0]), steps[1..]); }
  }

  // ---------------------------------------------------------------------
  // One webhook at a time
  // ---------------------------------------------------------------------

  /** No two webhooks overlap; years pass whenever they like. */
  ghost predicate OneAtATime(s: State, steps: seq<Step>)
    decreases steps
  {
    |s.pending| <= 1 && (steps != [] ==> OneAtATime(Next(s, steps[0]), steps[1..]))
  }

  /** At most one request, and it holds the count of all rows. */
  ghost predicate Sequential(s: State) {
    Inv(s) && |s.pending| <= 1 && forall r :: r in s.pending ==> !Stale(s.invoices, s.pending[r])
  }

  lemma OnlyOne(pending: map<int, Pending>, r: int)
    requires |pending| <= 1 && r in pending
    ensures pending - {r} == map[] && pending.Keys == {r}
  {
    SubsetSize({r}, pending.Keys);
    if pending.Keys - {r} != {} {
      SubsetSize({r, Member(pending.Keys - {r})}, pending.Keys);
    }
    EmptyTable(pending - {r});
  }

  lemma SequentialStep(s: State, step: Step)
    requires Sequential(s) && |Next(s, step).pending| <= 1
    ensures Careful(s, step) && Sequential(Next(s, step))
  {
    forall r, t ensures !Split(s, r, t) {
      if r in s.pending && t in s.pending { OnlyOne(s.pending, r); }
    }
    if step.Count? { OnlyOne(Next(s, step).pending, s.nextId); }
    StepKeeps(s, step);
    if step.Insert? && step.request in s.pending { OnlyOne(s.pending, step.request); }
  }

  lemma {:induction false} SequentialIsCareful(s: State, steps: seq<Step>)
    requires Sequential(s) && OneAtATime(s, steps)
    ensures CarefulRun(s, steps) && Sequential(Run(s, steps))
    decreases steps
  {
    if steps != [] {
      assert OneAtATime(Next(s, steps[0]), steps[1..]);
      SequentialStep(s, steps[0]);
      SequentialIsCareful(Next(s, steps[0]), steps[1..]);
    }
  }

  /**
    Over any run in which webhooks do not overlap, with refunds, failures and any
    number of years passing at any moment: the k-th invoice reads back as k, no
    number repeats, and a number that is about to be inserted is never taken.
   */
  lemma SequentialInOrder(year: nat, steps: seq<Step>)
    requires OneAtATime(Empty(year), steps)
    ensures var s := Run(Empty(year), steps);
            && InOrder(s.invoices) && Distinct(s.invoices)
            && forall r :: r in s.pending && s.pending[r].Stamped? ==> !Taken(s.invoices, s.pending[r].number)
  {
    SequentialIsCareful(Empty(year), steps);
    InvoicesInOrder(year, steps);
    var s := Run(Empty(year), steps);
    forall r | r in s.pending && s.pending[r].Stamped? ensures !Taken(s.invoices, s.pending[r].number) {
      InsertKeeps(s, r);
    }
  }

  // ---------------------------------------------------------------------
  // Careless steps
  // ---------------------------------------------------------------------

  lemma FourSteps(s: State, a: Step, b: Step, c: Step, d: Step)
    ensures Run(s, [a, b, c, d]) == Next(Next(Next(Next(s, a), b), c), d)
  {
    assert [a, b, c, d][1..] == [b, c, d] && [b, c, d][1..] == [c, d];
    assert [c, d][1..] == [d] && [d][1..] == [];
    assert Run(s, [a, b, c, d]) == Run(Next(Next(s, a), b), [c, d]);
    assert Run(Next(Next(s, a), b), [c, d]) == Run(Next(Next(Next(Next(s, a), b), c), d), []);
  }

  lemma TwoSteps(s: State, a: Step, b: Step)
    ensures Run(s, [a, b]) == Next(Next(s, a), b)
  {
    assert [a, b][1..] == [b] && [b][1..] == [];
    assert Run(Next(Next(s, a), b), []) == Next(Next(s, a), b);
  }

  lemma ThreeSteps(s: State, a: Step, b: Step, c: Step)
    ensures Run(s, [a, b, c]) == Next(Next(Next(s, a), b), c)
  {
    assert [a, b, c][1..] == [b, c];
    TwoSteps(Next(s, a), b, c);
  }

  /** One request has another year's number for the next place, a second is about to get this year's: both go in. */
  lemma BothInsert(s: State, r: int, t: int, y: nat)
    requires AllNumbered(s.invoices, s.year) && r in s.pending && t in s.pending
    requires s.pending[r] == Stamped(|s.invoices|, Number(y, |s.invoices| + 1)) && y != s.year
    requires s.pending[t] == Counted(|s.invoices|)
    ensures !InOrder(Run(s, [Stamp(t), Insert(t), Insert(r)]).invoices)
  {
    var n := |s.invoices|;
    ThreeSteps(s, Stamp(t), Insert(t), Insert(r));
    NextNumberFree(s, y);
    NextNumberFree(s, s.year);
    NumberInjective(y, n + 1, s.year, n + 1);
    var s2 := Next(Next(s, Stamp(t)), Insert(t));
    assert s2.invoices == s.invoices + [Invoice(Number(s.year, n + 1), Paid)];
    assert !Taken(s2.invoices, Number(y, n + 1)) by {
      forall i | 0 <= i < n + 1 ensures s2.invoices[i].number != Number(y, n + 1) {
        if i < n { assert s2.invoices[i] == s.invoices[i]; }
      }
    }
    assert Next(s2, Insert(r)).invoices[n + 1].number == Number(y, n + 1);
    SuffixReadsBack(y, n + 1);
  }

  lemma LaterYearFree(invoices: seq<Invoice>, year: nat, later: nat, k: nat)
    requires AllNumbered(invoices, year) && year < later
    ensures !Taken(invoices, Number(later, k))
  {
    forall i | 0 <= i < |invoices| ensures invoices[i].number != Number(later, k) {
      var number := invoices[i].number;
      var y: nat :| y <= year && IsNumber(number, y, i);
      NumberInjective(y, i + 1, later, k);
    }
  }

  /** A count whose place is taken gets the new year's number, which is not. */
  lemma StaleCount(s: State, r: int)
    requires AllNumbered(s.invoices, s.year) && r in s.pending && s.pending[r].Counted?
    requires Stale(s.invoices, s.pending[r])
    ensures !InOrder(Run(Next(s, NewYear), [Stamp(r), Insert(r)]).invoices)
  {
    var s0, n, c := Next(s, NewYear), |s.invoices|, s.pending[r].count;
    TwoSteps(s0, Stamp(r), Insert(r));
    LaterYearFree(s.invoices, s.year, s.year + 1, c + 1);
    var s2 := Next(Next(s0, Stamp(r)), Insert(r));
    assert s2.invoices[n].number == Number(s.year + 1, c + 1);
    SuffixReadsBack(s.year + 1, c + 1);
  }

  predicate NoneStarts(steps: seq<Step>) {
    forall k :: 0 <= k < |steps| ==> !steps[k].NewYear? && !steps[k].Count?
  }

  lemma {:induction false} CarefulWithoutStarts(s: State, steps: seq<Step>)
    requires NoneStarts(steps)
    ensures CarefulRun(s, steps)
    decreases steps
  {
    if steps != [] {
      assert !steps[0].NewYear? && !steps[0].Count?;
      CarefulWithoutStarts(Next(s, steps[0]), steps[1..]);
    }
  }

  /** Something that starts neither a webhook nor a year leads out of order. */
  ghost predicate CanGoWrong(s: State) {
    exists after :: NoneStarts(after) && !InOrder(Run(s, after).invoices)
  }

  lemma CountBesideOld(s: State, r: int)
    requires Inv(s) && HoldsOldNumber(s, r)
    ensures CanGoWrong(AfterCount(s))
  {
    assert PendingOk(s.invoices, s.pending[r], s.year);
    var y: nat :| y <= s.year && IsNumber(s.pending[r].number, y, s.pending[r].count);
    BothInsert(AfterCount(s), r, s.nextId, y);
    assert NoneStarts([Stamp(s.nextId), Insert(s.nextId), Insert(r)]);
  }

  lemma YearBesideSplit(s: State, r: int, t: int)
    requires Inv(s) && Split(s, r, t)
    ensures CanGoWrong(Next(s, NewYear))
  {
    assert PendingOk(s.invoices, s.pending[r], s.year) && PendingOk(s.invoices, s.pending[t], s.year);
    assert Agree(s.invoices, s.pending[r], s.pending[t], s.year);
    LaterYear(s.invoices, s.year, s.year + 1);
    BothInsert(Next(s, NewYear), r, t, s.year);
    assert NoneStarts([Stamp(t), Insert(t), Insert(r)]);
  }

  lemma YearBesideStale(s: State, r: int)
    requires Inv(s) && r in s.pending && s.pending[r].Counted? && Stale(s.invoices, s.pending[r])
    ensures CanGoWrong(Next(s, NewYear))
  {
    StaleCount(s, r);
    assert NoneStarts([Stamp(r), Insert(r)]);
  }

  lemma CarelessStep(s: State, step: Step)
    requires Inv(s) && !Careful(s, step)
    ensures CanGoWrong(Next(s, step))
  {
    if step.Count? {
      var r :| HoldsOldNumber(s, r);
      CountBesideOld(s, r);
    } else if r :| r in s.pending && s.pending[r].Counted? && Stale(s.invoices, s.pending[r]) {
      YearBesideStale(s, r);
    } else {
      var r, t :| Split(s, r, t);
      YearBesideSplit(s, r, t);
    }
  }

  ghost predicate StaysInOrder(s: State) {
    forall after :: CarefulRun(s, after) ==> InOrder(Run(s, after).invoices)
  }

  /**
    The exact condition, step by step: after a step of a careful run the invoices
    stay in order, whatever follows carefully, iff the step was careful itself.
   */
  lemma CarefulIsExact(year: nat, before: seq<Step>, step: Step)
    requires CarefulRun(Empty(year), before)
    ensures StaysInOrder(Next(Run(Empty(year), before), step)) <==> Careful(Run(Empty(year), before), step)
  {
    var s := Run(Empty(year), before);
    RunKeeps(Empty(year), before);
    var s0 := Next(s, step);
    if Careful(s, step) {
      StepKeeps(s, step);
      forall after | CarefulRun(s0, after) ensures InOrder(Run(s0, after).invoices) {
        RunKeeps(s0, after);
        NumberedInOrder(Run(s0, after).invoices, Run(s0, after).year);
      }
    } else {
      CarelessStep(s, step);
      var after :| NoneStarts(after) && !InOrder(Run(s0, after).invoices);
      CarefulWithoutStarts(s0, after);
    }
  }

  /** A first number is made, a year passes, a second webhook starts: two invoices are numbered 1. */
  lemma YearOutOfOrder(year: nat)
    ensures var s := Run(Empty(year), [Count, Stamp(0), NewYear]);
            && CarefulRun(Empty(year), [Count, Stamp(0), NewYear]) && !Careful(s, Count)
            && Run(s, [Count, Stamp(1), Insert(1), Insert(0)]).invoices
               == [Invoice(Number(year + 1, 1), Paid), Invoice(Number(year, 1), Paid)]
            && !InOrder(Run(s, [Count, Stamp(1), Insert(1), Insert(0)]).invoices)
  {
    var s := State([], map[0 := Stamped(0, Number(year, 1))], year + 1, 1);
    ThreeSteps(Empty(year), Count, Stamp(0), NewYear);
    assert Run(Empty(year), [Count, Stamp(0), NewYear]) == s;
    LoneRunCareful(year);
    NumberInjective(year, 1, year + 1, 1);
    assert HoldsOldNumber(s, 0);
    BothNumberedOne(s, year);
  }

  lemma LoneRunCareful(year: nat)
    ensures CarefulRun(Empty(year), [Count, Stamp(0), NewYear])
  {
    var steps := [Count, Stamp(0), NewYear];
    var s1 := Next(Empty(year), Count);
    assert s1.pending == map[0 := Counted(0)];
    var s2 := Next(s1, Stamp(0));
    assert s2.pending == map[0 := Stamped(0, Number(year, 1))];
    assert steps[1..] == [Stamp(0), NewYear] && steps[1..][1..] == [NewYear] && steps[1..][1..][1..] == [];
    assert CarefulRun(Next(s2, NewYear), []);
    assert CarefulRun(s2, steps[1..][1..]);
    assert CarefulRun(s1, steps[1..]);
  }

  lemma BothNumberedOne(s: State, year: nat)
    requires s == State([], map[0 := Stamped(0, Number(year, 1))], year + 1, 1)
    ensures var invoices := Run(s, [Count, Stamp(1), Insert(1), Insert(0)]).invoices;
            && invoices == [Invoice(Number(year + 1, 1), Paid), Invoice(Number(year, 1), Paid)]
            && !InOrder(invoices)
  {
    FourSteps(s, Count, Stamp(1), Insert(1), Insert(0));
    NumberInjective(year, 1, year + 1, 1);
    SecondNumberedOne([Invoice(Number(year + 1, 1), Paid), Invoice(Number(year, 1), Paid)], year);
  }

  lemma SecondNumberedOne(invoices: seq<Invoice>, year: nat)
    requires |invoices| == 2 && invoices[1].number == Number(year, 1)
    ensures !InOrder(invoices)
  {
    SuffixReadsBack(year, 1);
    assert Suffix(invoices[1].number) != 2;
  }
}
