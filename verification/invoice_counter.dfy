/** The three `getNextInvoiceNumber` counters: the backend service in its
    TypeScript (src/services/invoiceService.ts) and JavaScript
    (src/services/invoiceService.js) versions, which read, bump and write one
    integer cell, and the browser-storage counter of src/utils/invoice.js.
    A call's outcome is kept as the number it reserved; `Text` renders it as
    the string the function returns. */
module InvoiceCounter {

  import opened Wrappers
  import opened InvoiceNumber
  import Seqs

  /** The `counter` column of the `invoice_counter` row with id 1; `None` when
      the row is missing. */
  type Cell = Option<int>

  /** Which of the two backend calls report an error. */
  datatype Faults = Faults(fetchFails: bool, updateFails: bool)

  const NoFaults := Faults(false, false)

  /** The two service versions differ only in the value they write back. */
  datatype Service = TsService | JsService

  /** A reserved number, or the failure that the string `SIS-ERROR` stands
      for. */
  datatype Outcome = Number(value: int) | Failure
  {
    /** The string `getNextInvoiceNumber` returns. */
    function Text(): string
    {
      match this
      case Number(v) => Format(v)
      case Failure => ErrorNumber
    }
  }

  /** The returned string is the sentinel exactly for a failure. */
  lemma TextIsSentinelOnFailure(o: Outcome)
    ensures o.Text() == ErrorNumber <==> o.Failure?
  {
    if o.Number? {
      FormatShape(o.value);
    }
  }

  /** What a call returns, the cell afterwards, and whether the update was
      sent at all. */
  datatype Reply = Reply(outcome: Outcome, cell: Cell, updateSent: bool)

  /** The value each version writes for `next = current + 1`: the TypeScript
      version writes `next`, the JavaScript version `next + 1`. */
  function Written(service: Service, next: int): int
  {
    match service
    case TsService => next
    case JsService => next + 1
  }

  /** `getNextInvoiceNumber()`: a failed or empty fetch returns `SIS-ERROR`
      without writing; otherwise `next = current + 1` is the number and the new
      counter is written, and a failed write also returns `SIS-ERROR`. */
  function GetNextInvoiceNumber(service: Service, cell: Cell, faults: Faults): (r: Reply)
    ensures faults.fetchFails || cell.None? ==> r.outcome == Failure && r.cell == cell && !r.updateSent
    ensures r.outcome.Failure? ==> r.cell == cell
    ensures r.outcome.Number? <==> !faults.fetchFails && cell.Some? && !faults.updateFails
    ensures r.outcome.Number? ==> r.outcome.value == cell.value + 1
    ensures r.outcome.Number? && service == TsService ==> r.cell == Some(cell.value + 1)
    ensures r.outcome.Number? && service == JsService ==> r.cell == Some(cell.value + 2)
  {
    if faults.fetchFails || cell.None? then Reply(Failure, cell, false)
    else
      var next := cell.value + 1;
      if faults.updateFails then Reply(Failure, cell, true)
      else Reply(Number(next), Some(Written(service, next)), true)
  }

  /** How far one successful call moves the counter. */
  function Stride(service: Service): nat
  {
    match service
    case TsService => 1
    case JsService => 2
  }

  /** `n` calls in a row, every backend call succeeding, from a counter at
      `start`: the `i`-th call returns `start + 1 + stride * i`, so the numbers
      strictly increase. */
  method ReserveInSequence(service: Service, start: int, n: nat) returns (numbers: seq<int>, cell: Cell)
    ensures |numbers| == n
    ensures forall i :: 0 <= i < n ==> numbers[i] == start + 1 + Stride(service) * i
    ensures forall i, j :: 0 <= i < j < n ==> numbers[i] < numbers[j]
    ensures cell == Some(start + Stride(service) * n)
  {
    numbers := [];
    cell := Some(start);
    var i := 0;
    while i < n
      invariant 0 <= i <= n
      invariant |numbers| == i
      invariant cell == Some(start + Stride(service) * i)
      invariant forall j :: 0 <= j < i ==> numbers[j] == start + 1 + Stride(service) * j
      invariant forall j, k :: 0 <= j < k < i ==> numbers[j] < numbers[k]
    {
      var reply := GetNextInvoiceNumber(service, cell, NoFaults);
      numbers := numbers + [reply.outcome.value];
      cell := reply.cell;
      i := i + 1;
    }
  }

  /** Strictly increasing non-negative numbers give pairwise different
      invoice-number strings. */
  lemma TextsDistinct(numbers: seq<int>)
    requires forall i :: 0 <= i < |numbers| ==> numbers[i] >= 0
    requires forall i, j :: 0 <= i < j < |numbers| ==> numbers[i] < numbers[j]
    ensures forall i, j :: 0 <= i < j < |numbers| ==> Format(numbers[i]) != Format(numbers[j])
  {
    forall i, j | 0 <= i < j < |numbers|
      ensures Format(numbers[i]) != Format(numbers[j])
    {
      if Format(numbers[i]) == Format(numbers[j]) {
        FormatInjective(numbers[i], numbers[j]);
      }
    }
  }

  /** The TypeScript version leaves no gap: two successful calls in a row
      return consecutive numbers. */
  lemma TsConsecutive(current: int)
    ensures var first := GetNextInvoiceNumber(TsService, Some(current), NoFaults);
      var second := GetNextInvoiceNumber(TsService, first.cell, NoFaults);
      first.outcome == Number(current + 1) && second.outcome == Number(current + 2)
  {
  }

  /** The JavaScript version skips a number on every call: after
      `current + 1` comes `current + 3`, and no later successful call ever
      issues `current + 2`. */
  lemma JsSkipsNumbers(current: int, n: nat)
    ensures var first := GetNextInvoiceNumber(JsService, Some(current), NoFaults);
      var second := GetNextInvoiceNumber(JsService, first.cell, NoFaults);
      first.outcome == Number(current + 1) && second.outcome == Number(current + 3)
    ensures GetNextInvoiceNumber(JsService, Some(current + 2 * n), NoFaults).outcome != Number(current + 2)
  {
  }

  /** The `invoiceCounter` key of browser storage: absent, or holding the
      digits of a number this function wrote. */
  datatype Storage = Absent | Holds(value: nat)

  /** `parseInt(localStorage.getItem('invoiceCounter') || '1', 10)`. */
  function StoredValue(storage: Storage): nat
  {
    match storage
    case Absent => 1
    case Holds(v) => v
  }

  /** The browser-storage `getNextInvoiceNumber()`: returns the stored value
      (1 when nothing is stored) and stores the value after it. It never
      fails. */
  function LocalNextInvoiceNumber(storage: Storage): (r: (Outcome, Storage))
    ensures r.0.Number? && r.0.value == StoredValue(storage)
    ensures r.1 == Holds(StoredValue(storage) + 1)
  {
    var current := StoredValue(storage);
    (Number(current), Holds(current + 1))
  }

  /** With nothing stored, the first number is SIS-0001. */
  lemma LocalFirstNumber()
    ensures LocalNextInvoiceNumber(Absent).0.Text() == "SIS-0001"
    ensures LocalNextInvoiceNumber(Absent).1 == Holds(2)
  {
    FormatOne();
  }

  /** `n` calls in a row return consecutive numbers from the stored value on,
      with no gap and no repeat. */
  method LocalInSequence(storage: Storage, n: nat) returns (numbers: seq<int>, after: Storage)
    ensures |numbers| == n
    ensures forall i :: 0 <= i < n ==> numbers[i] == StoredValue(storage) + i
    ensures forall i :: 0 <= i < n - 1 ==> numbers[i + 1] == numbers[i] + 1
    ensures n > 0 ==> after == Holds(StoredValue(storage) + n)
    ensures n == 0 ==> after == storage
  {
    numbers := [];
    after := storage;
    var i := 0;
    while i < n
      invariant 0 <= i <= n
      invariant |numbers| == i
      invariant i > 0 ==> after == Holds(StoredValue(storage) + i)
      invariant i == 0 ==> after == storage
      invariant forall j :: 0 <= j < i ==> numbers[j] == StoredValue(storage) + j
    {
      var step := LocalNextInvoiceNumber(after);
      numbers := numbers + [step.0.value];
      after := step.1;
      i := i + 1;
    }
  }
}
