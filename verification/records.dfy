/** The values the exporter handles: sevDesk vouchers and invoices as the API
    delivers them, the dates they carry, and JavaScript's truthiness rules for
    their nullable fields. */
module Records {
  import opened Wrappers

  /** A day of the proleptic Gregorian calendar, as a JavaScript `Date` counts days. */
  datatype CalendarDate = CalendarDate(year: int, month: int, day: int)

  /** The earliest and latest years a JavaScript `Date` can hold (8.64e15 ms either side of the epoch).
      Only the year is bounded: a few days at either end of these years, such as
      275760-12-31 and -271821-01-01, are admitted though no `Date` holds them. */
  const MinYear: int := -271821
  const MaxYear: int := 275760

  predicate IsLeapYear(y: int)
  {
    y % 4 == 0 && (y % 100 != 0 || y % 400 == 0)
  }

  function DaysInMonth(y: int, m: int): int
    requires 1 <= m <= 12
  {
    if m == 2 then (if IsLeapYear(y) then 29 else 28)
    else if m == 4 || m == 6 || m == 9 || m == 11 then 30
    else 31
  }

  predicate ValidDate(d: CalendarDate)
  {
    MinYear <= d.year <= MaxYear && 1 <= d.month <= 12 && 1 <= d.day <= DaysInMonth(d.year, d.month)
  }

  type LocalDate = d: CalendarDate | ValidDate(d) witness CalendarDate(1970, 1, 1)

  /** A JavaScript `Date`: milliseconds since the epoch, together with the calendar
      date that the host's time zone assigns to that instant. */
  datatype Instant = Instant(millis: int, local: LocalDate)

  /** A record id; sevDesk sends ids as strings, a number is accepted as well. */
  datatype Id = TextId(text: string) | NumberId(number: int)

  /** `if (id)`: the empty string and the number 0 are falsy, as are `null` and `undefined`. */
  predicate IdPresent(id: Option<Id>)
  {
    match id
    case None => false
    case Some(TextId(s)) => s != ""
    case Some(NumberId(n)) => n != 0
  }

  /** A nullable string used as a condition: present and non-empty. */
  predicate Present(s: Option<string>)
  {
    s.Some? && s.value != ""
  }

  /** `s || fallback` for a nullable string. */
  function OrElse(s: Option<string>, fallback: string): string
  {
    if Present(s) then s.value else fallback
  }

  /** The accounting account (Buchhaltungskonto) a voucher position is booked on. */
  datatype AccountingType = AccountingType(name: Option<string>)

  /** A voucher line item, fetched with its accounting type embedded. */
  datatype Position = Position(accountingType: AccountingType)

  /** The `document` object embedded in a voucher or invoice. */
  datatype DocMeta = DocMeta(extension: Option<string>, filename: Option<string>)

  /** An embedded supplier or customer contact. */
  datatype Contact = Contact(name: Option<string>)

  /** An incoming document as the voucher endpoint delivers it; `positions` is
      absent until the exporter attaches the voucher's line items. */
  datatype Voucher = Voucher(
    id: Id,
    voucherDate: Instant,
    payDate: Option<Instant>,
    description: Option<string>,
    paidAmount: real,
    supplierName: Option<string>,
    supplierNameAtSave: Option<string>,
    supplier: Option<Contact>,
    positions: Option<seq<Position>>,
    document: Option<DocMeta>)

  /** An outgoing invoice as the invoice endpoint delivers it. */
  datatype Invoice = Invoice(
    id: Id,
    invoiceDate: Instant,
    invoiceNumber: Option<string>,
    payDate: Option<Instant>,
    addressName: Option<string>,
    contact: Option<Contact>,
    paidAmount: real,
    document: Option<DocMeta>)

  /** Either kind of record, read field by field the way the exporter reads its
      untyped objects: a field the kind does not have reads as absent. */
  datatype Record = VoucherRecord(voucher: Voucher) | InvoiceRecord(invoice: Invoice)
  {
    function RecordId(): Id
    {
      match this
      case VoucherRecord(v) => v.id
      case InvoiceRecord(i) => i.id
    }

    function PayDate(): Option<Instant>
    {
      match this
      case VoucherRecord(v) => v.payDate
      case InvoiceRecord(i) => i.payDate
    }

    function SupplierName(): Option<string>
    {
      if VoucherRecord? then voucher.supplierName else None
    }

    function SupplierNameAtSave(): Option<string>
    {
      if VoucherRecord? then voucher.supplierNameAtSave else None
    }

    function AddressName(): Option<string>
    {
      if InvoiceRecord? then invoice.addressName else None
    }

    function Positions(): Option<seq<Position>>
    {
      if VoucherRecord? then voucher.positions else None
    }

    function Document(): Option<DocMeta>
    {
      match this
      case VoucherRecord(v) => v.document
      case InvoiceRecord(i) => i.document
    }
  }
}
