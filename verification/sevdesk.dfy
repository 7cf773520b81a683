/** The record side of the exporter: fetching vouchers and invoices for a pay-date
    range, naming and downloading their documents, and turning them into journal rows. */
module Sevdesk {
  import opened Wrappers
  import opened Text
  import opened Records
  import opened Helper

  /** The `objectType` argument: "vouchers", "invoices" or any other text. */
  datatype ObjectType = Vouchers | Invoices | OtherType

  /** The command-line option that matters here: `--extra-info-filename`. */
  datatype Options = Options(extraInfoFilename: bool)

  /** The two foreign libraries the code calls, taken as given functions:
      `sanitize-filename` and Node's base64 `Buffer.from`. */
  datatype Libraries = Libraries(sanitizeFilename: string -> string, base64Decode: string -> seq<bv8>)

  // ---------------------------------------------------------------------------
  // getDocumentFileName

  /** The name part: the supplier for vouchers, the addressee for invoices. */
  function DisplayName(r: Record, objectType: ObjectType): string
  {
    match objectType
    case Vouchers => OrElse(r.SupplierName(), OrElse(r.SupplierNameAtSave(), ""))
    case Invoices => OrElse(r.AddressName(), "")
    case OtherType => ""
  }

  /** The extra info: the categories of the positions, comma-separated, when asked for. */
  function ExtraInfo(r: Record, options: Options): string
  {
    if options.extraInfoFilename && r.Positions().Some?
    then Join(GetCategories(r.Positions().value), ",")
    else ""
  }

  /** The file extension: "pdf", unless the document names one, unless its filename has a suffix. */
  function ChooseExtension(document: Option<DocMeta>): string
  {
    match document
    case None => "pdf"
    case Some(d) =>
      var byField := if Present(d.extension) then d.extension.value else "pdf";
      if Present(d.filename) && LastSegment(d.filename.value, '.') != d.filename.value
      then LastSegment(d.filename.value, '.')
      else byField
  }

  /** The name `getDocumentFileName` builds before it sanitises it. */
  function RawFileName(r: Record, objectType: ObjectType, options: Options): string
  {
    FileName(r.PayDate(), DisplayName(r, objectType), Some(r.RecordId()), ExtraInfo(r, options), ChooseExtension(r.Document()))
  }

  /** The name `getDocumentFileName` returns. */
  function DocumentFileName(r: Record, objectType: ObjectType, options: Options, libs: Libraries): string
  {
    libs.sanitizeFilename(RawFileName(r, objectType, options))
  }

  /** `getDocumentFileName`: settles name, extra info and extension one after the other,
      then has the builder assemble them and sanitises the result. */
  method GetDocumentFileName(r: Record, objectType: ObjectType, options: Options, libs: Libraries)
    returns (fileName: string)
    ensures fileName == DocumentFileName(r, objectType, options, libs)
  {
    var payDate := r.PayDate();
    var name := "";
    var extraInfos := "";

    if objectType == Vouchers {
      name := OrElse(r.SupplierName(), OrElse(r.SupplierNameAtSave(), ""));
    } else if objectType == Invoices {
      name := OrElse(r.AddressName(), "");
    }

    if options.extraInfoFilename && r.Positions().Some? {
      extraInfos := extraInfos + Join(GetCategories(r.Positions().value), ",");
    }

    var extension := "pdf";
    if r.Document().Some? {
      var document := r.Document().value;
      if Present(document.extension) {
        extension := document.extension.value;
      }
      if Present(document.filename) && LastSegment(document.filename.value, '.') != document.filename.value {
        extension := LastSegment(document.filename.value, '.');
      }
    }

    assert name == DisplayName(r, objectType);
    assert extraInfos == ExtraInfo(r, options);
    assert extension == ChooseExtension(r.Document());
    fileName := BuildDocumentFileName(payDate, name, Some(r.RecordId()), extraInfos, extension);
    fileName := libs.sanitizeFilename(fileName);
  }

  /** The extension is "pdf" by default; a document's `extension` field replaces it; and
      when the document's filename contains a dot, the text after its last dot replaces
      both, so that the filename ends in a dot and the chosen extension, which has no dot. */
  lemma ExtensionRule(document: Option<DocMeta>)
    ensures document.None? ==> ChooseExtension(document) == "pdf"
    ensures document.Some? ==>
      var d, e := document.value, ChooseExtension(document);
      if Present(d.filename) && '.' in d.filename.value then
        var f := d.filename.value;
        '.' !in e && |e| < |f| && f[|f| - |e| - 1..] == "." + e
      else if Present(d.extension) then e == d.extension.value
      else e == "pdf"
  {
    if document.Some? && document.value.filename.Some? {
      var f := document.value.filename.value;
      LastSegmentSplit(f, '.');
      var e := LastSegment(f, '.');
      if '.' in f {
        assert f[|f| - |e| - 1..] == [f[|f| - |e| - 1]] + f[|f| - |e|..];
      }
    }
  }

  /** Name precedence: for vouchers the supplier name, else the supplier name at save,
      else nothing; for invoices the address name, else nothing; otherwise nothing. */
  lemma NameRule(r: Record, objectType: ObjectType)
    ensures objectType == Vouchers ==>
      DisplayName(r, objectType)
        == if Present(r.SupplierName()) then r.SupplierName().value
           else if Present(r.SupplierNameAtSave()) then r.SupplierNameAtSave().value
           else ""
    ensures objectType == Invoices ==>
      DisplayName(r, objectType) == if Present(r.AddressName()) then r.AddressName().value else ""
    ensures objectType == OtherType ==> DisplayName(r, objectType) == ""
    ensures r.InvoiceRecord? && objectType == Vouchers ==> DisplayName(r, objectType) == ""
  {
  }

  /** Category extra info is added only for a record with positions when the option is on,
      and then it is the comma-joined categories, one per position. */
  lemma ExtraInfoRule(r: Record, options: Options)
    ensures ExtraInfo(r, options) != "" ==>
      options.extraInfoFilename && r.Positions().Some? && |r.Positions().value| > 0
    ensures options.extraInfoFilename && r.Positions().Some? ==>
      ExtraInfo(r, options) == Join(GetCategories(r.Positions().value), ",")
    ensures r.InvoiceRecord? ==> ExtraInfo(r, options) == ""
  {
  }

  /** Two records of one type whose present ids are written differently get different
      names before sanitising when all other parts agree: the id keeps names apart. */
  lemma RawFileNameIdUnique(r1: Record, r2: Record, objectType: ObjectType, options: Options)
    requires IdPresent(Some(r1.RecordId())) && IdPresent(Some(r2.RecordId()))
    requires IdText(r1.RecordId()) != IdText(r2.RecordId())
    requires r1.PayDate() == r2.PayDate() && r1.Document() == r2.Document()
    requires DisplayName(r1, objectType) == DisplayName(r2, objectType)
    requires ExtraInfo(r1, options) == ExtraInfo(r2, options)
    ensures RawFileName(r1, objectType, options) != RawFileName(r2, objectType, options)
  {
    if RawFileName(r1, objectType, options) == RawFileName(r2, objectType, options) {
      FileNameIdUnique(r1.PayDate(), DisplayName(r1, objectType), r1.RecordId(), r2.RecordId(),
                       ExtraInfo(r1, options), ChooseExtension(r1.Document()));
    }
  }

  // ---------------------------------------------------------------------------
  // getInvoices

  /** The creation-date window sent to the invoice endpoint, in milliseconds. */
  datatype InvoiceQuery = InvoiceQuery(startDate: int, endDate: int)

  /** The widened window: the requested range and the two equally long ranges before it. */
  function InvoiceQueryWindow(startPayDate: int, endPayDate: int): (q: InvoiceQuery)
    ensures startPayDate <= endPayDate ==> q.startDate <= startPayDate
    ensures q.endDate == endPayDate
    ensures q.endDate - q.startDate == 3 * (endPayDate - startPayDate)
  {
    var timeRangeLength := endPayDate - startPayDate;
    InvoiceQuery(startPayDate - 2 * timeRangeLength, endPayDate)
  }

  /** The client-side test: a pay date that lies in the inclusive range. */
  predicate PaidWithin(invoice: Invoice, startPayDate: int, endPayDate: int)
  {
    invoice.payDate.Some? && startPayDate <= invoice.payDate.value.millis <= endPayDate
  }

  /** The fetched invoices that pass the pay-date test, in fetched order. */
  function PaidInRange(invoices: seq<Invoice>, startPayDate: int, endPayDate: int): (kept: seq<Invoice>)
    ensures |kept| <= |invoices|
    ensures forall inv :: inv in kept ==> inv in invoices && PaidWithin(inv, startPayDate, endPayDate)
    ensures forall inv :: inv in invoices && PaidWithin(inv, startPayDate, endPayDate) ==> inv in kept
  {
    if invoices == [] then []
    else
      var rest := PaidInRange(invoices[1..], startPayDate, endPayDate);
      assert forall inv :: inv in invoices ==> inv == invoices[0] || inv in invoices[1..];
      if PaidWithin(invoices[0], startPayDate, endPayDate) then [invoices[0]] + rest else rest
  }

  /** `getInvoices`: queries the widened window and keeps the invoices paid in range;
      a failed call is rethrown with its message. */
  function GetInvoices(startPayDate: int, endPayDate: int, listInvoices: InvoiceQuery -> Result<seq<Invoice>, string>)
    : (r: Result<seq<Invoice>, string>)
    ensures var fetched := listInvoices(InvoiceQueryWindow(startPayDate, endPayDate));
      (fetched.Failure? ==> r == Failure(fetched.error))
      && (fetched.Success? ==>
            r.Success?
            && forall inv :: inv in r.value <==> inv in fetched.value && PaidWithin(inv, startPayDate, endPayDate))
  {
    match listInvoices(InvoiceQueryWindow(startPayDate, endPayDate))
    case Failure(message) => Failure(message)
    case Success(invoices) => Success(PaidInRange(invoices, startPayDate, endPayDate))
  }

  /** `sub` is `s` with some elements left out, the rest in their order. */
  predicate IsSubsequence<T(==)>(sub: seq<T>, s: seq<T>)
  {
    if sub == [] then true
    else if s == [] then false
    else if sub[0] == s[0] then IsSubsequence(sub[1..], s[1..])
    else IsSubsequence(sub, s[1..])
  }

  /** The filter keeps the fetched order: its result is a subsequence of the fetched list. */
  lemma {:induction false} PaidInRangeIsSubsequence(invoices: seq<Invoice>, startPayDate: int, endPayDate: int)
    ensures IsSubsequence(PaidInRange(invoices, startPayDate, endPayDate), invoices)
  {
    if invoices != [] {
      PaidInRangeIsSubsequence(invoices[1..], startPayDate, endPayDate);
      var rest := PaidInRange(invoices[1..], startPayDate, endPayDate);
      if PaidWithin(invoices[0], startPayDate, endPayDate) {
        assert ([invoices[0]] + rest)[1..] == rest;
      } else if rest != [] {
        SubsequenceSkip(rest, invoices);
      }
    }
  }

  lemma SubsequenceSkip<T>(sub: seq<T>, s: seq<T>)
    requires s != [] && sub != [] && IsSubsequence(sub, s[1..])
    ensures IsSubsequence(sub, s)
  {
    if sub[0] == s[0] {
      SubsequenceDrop(sub, s[1..]);
    }
  }

  /** Dropping the first element of a subsequence leaves a subsequence. */
  lemma {:induction false} SubsequenceDrop<T>(sub: seq<T>, s: seq<T>)
    requires sub != [] && IsSubsequence(sub, s)
    ensures IsSubsequence(sub[1..], s)
  {
    if s != [] {
      if sub[0] == s[0] {
        if sub[1..] != [] {
          SubsequenceSkip(sub[1..], s);
        }
      } else {
        SubsequenceDrop(sub, s[1..]);
        if sub[1..] != [] {
          SubsequenceSkip(sub[1..], s);
        }
      }
    }
  }

  /** Filtering a concatenation filters each part: batches keep their relative order. */
  lemma {:induction false} PaidInRangeAppend(xs: seq<Invoice>, ys: seq<Invoice>, startPayDate: int, endPayDate: int)
    ensures PaidInRange(xs + ys, startPayDate, endPayDate)
         == PaidInRange(xs, startPayDate, endPayDate) + PaidInRange(ys, startPayDate, endPayDate)
  {
    if xs != [] {
      assert (xs + ys)[1..] == xs[1..] + ys;
      PaidInRangeAppend(xs[1..], ys, startPayDate, endPayDate);
    } else {
      assert xs + ys == ys;
    }
  }

  /** Filtering twice keeps the same invoices as filtering once. */
  lemma {:induction false} PaidInRangeIdempotent(invoices: seq<Invoice>, startPayDate: int, endPayDate: int)
    ensures var once := PaidInRange(invoices, startPayDate, endPayDate);
      PaidInRange(once, startPayDate, endPayDate) == once
  {
    if invoices != [] {
      PaidInRangeIdempotent(invoices[1..], startPayDate, endPayDate);
      var rest := PaidInRange(invoices[1..], startPayDate, endPayDate);
      if PaidWithin(invoices[0], startPayDate, endPayDate) {
        assert ([invoices[0]] + rest)[1..] == rest;
      }
    }
  }

  // ---------------------------------------------------------------------------
  // getVouchers and getVoucherPositions

  /** The pay-date window sent to the voucher endpoint, in milliseconds. */
  datatype VoucherQuery = VoucherQuery(startPayDate: int, endPayDate: int)

  /** `getVoucherPositions`: the positions the endpoint returns, or none when the call fails. */
  function GetVoucherPositions(voucherId: Id, listPositions: Id -> Result<seq<Position>, string>): (positions: seq<Position>)
    ensures listPositions(voucherId).Failure? ==> positions == []
    ensures listPositions(voucherId).Success? ==> positions == listPositions(voucherId).value
  {
    match listPositions(voucherId)
    case Success(positions) => positions
    case Failure(_) => []
  }

  /** Each voucher with its positions attached, in fetched order. */
  function WithPositions(vouchers: seq<Voucher>, listPositions: Id -> Result<seq<Position>, string>): (r: seq<Voucher>)
    ensures |r| == |vouchers|
    ensures forall i :: 0 <= i < |vouchers| ==>
      r[i] == vouchers[i].(positions := Some(GetVoucherPositions(vouchers[i].id, listPositions)))
  {
    if vouchers == [] then []
    else
      [vouchers[0].(positions := Some(GetVoucherPositions(vouchers[0].id, listPositions)))]
      + WithPositions(vouchers[1..], listPositions)
  }

  /** `getVouchers`: one voucher per fetched voucher, in order, each unchanged except
      that it now carries positions, which are empty when their call failed; a failed
      primary call is rethrown with its message. */
  function GetVouchers(
    startPayDate: int, endPayDate: int,
    listVouchers: VoucherQuery -> Result<seq<Voucher>, string>,
    listPositions: Id -> Result<seq<Position>, string>)
    : (r: Result<seq<Voucher>, string>)
    ensures var fetched := listVouchers(VoucherQuery(startPayDate, endPayDate));
      (fetched.Failure? ==> r == Failure(fetched.error))
      && (fetched.Success? ==>
          r.Success? && |r.value| == |fetched.value|
          && forall i :: 0 <= i < |r.value| ==>
               r.value[i].positions.Some?
               && r.value[i].(positions := fetched.value[i].positions) == fetched.value[i]
               && (listPositions(fetched.value[i].id).Failure? ==> r.value[i].positions == Some([]))
               && (listPositions(fetched.value[i].id).Success? ==>
                     r.value[i].positions == Some(listPositions(fetched.value[i].id).value)))
  {
    match listVouchers(VoucherQuery(startPayDate, endPayDate))
    case Failure(message) => Failure(message)
    case Success(vouchers) => Success(WithPositions(vouchers, listPositions))
  }

  // ---------------------------------------------------------------------------
  // downloadDocuments and downloadDocument

  /** The two download endpoints: `Voucher/{id}/downloadDocument` and `Invoice/{id}/getPdf`. */
  datatype Endpoint = VoucherDocument(voucherId: Id) | InvoicePdf(invoiceId: Id)

  /** The `objects` of a download response. */
  datatype Payload = Payload(content: string, base64Encoded: bool)

  /** What a call returns: an error, or a response whose `objects` may be empty. */
  datatype Response = CallFailed | Responded(objects: Option<Payload>)

  /** Document content as handed on: the text as sent, or the bytes decoded from base64. */
  datatype Content = PlainContent(text: string) | DecodedContent(bytes: seq<bv8>)

  /** A downloaded document and the name it is saved under. */
  datatype Document = Document(document: Content, fileName: string)

  /** The endpoint called for a record, if its type is known. */
  function DownloadEndpoint(objectType: ObjectType, r: Record): Option<Endpoint>
  {
    match objectType
    case Vouchers => Some(VoucherDocument(r.RecordId()))
    case Invoices => Some(InvoicePdf(r.RecordId()))
    case OtherType => None
  }

  /** `downloadDocument`: the content and filename, or nothing when the type is unknown,
      the call fails or no document is attached. A record yields a document exactly when
      its type is known and its endpoint answers with a payload; the content is decoded
      exactly when the payload says it is base64, and the document is named by
      `getDocumentFileName`. */
  function DownloadDocument(objectType: ObjectType, r: Record, options: Options, call: Endpoint -> Response, libs: Libraries)
    : (d: Option<Document>)
    ensures d.Some? <==> objectType != OtherType
                         && call(DownloadEndpoint(objectType, r).value).Responded?
                         && call(DownloadEndpoint(objectType, r).value).objects.Some?
    ensures d.Some? ==>
      var payload := call(DownloadEndpoint(objectType, r).value).objects.value;
      d.value.fileName == DocumentFileName(r, objectType, options, libs)
      && (d.value.document.DecodedContent? <==> payload.base64Encoded)
      && (d.value.document.PlainContent? ==> d.value.document.text == payload.content)
      && (d.value.document.DecodedContent? ==> d.value.document.bytes == libs.base64Decode(payload.content))
  {
    match DownloadEndpoint(objectType, r)
    case None => None
    case Some(endpoint) =>
      match call(endpoint)
      case CallFailed => None
      case Responded(None) => None
      case Responded(Some(payload)) =>
        var content := if payload.base64Encoded then DecodedContent(libs.base64Decode(payload.content))
                       else PlainContent(payload.content);
        Some(Document(content, DocumentFileName(r, objectType, options, libs)))
  }

  /** `filter((vd) => vd)` on a list of downloads: the documents that came back, in order. */
  function Collect<T>(results: seq<Option<T>>): (kept: seq<T>)
    ensures |kept| == |results| - Absent(results)
  {
    if results == [] then []
    else (if results[0].Some? then [results[0].value] else []) + Collect(results[1..])
  }

  /** How many downloads came back empty. */
  function Absent<T>(results: seq<Option<T>>): (n: nat)
    ensures n <= |results|
  {
    if results == [] then 0
    else (if results[0].None? then 1 else 0) + Absent(results[1..])
  }

  /** Every kept value was one of the results. */
  lemma {:induction false} CollectFrom<T>(results: seq<Option<T>>)
    ensures forall x :: x in Collect(results) ==> Some(x) in results
  {
    if results != [] {
      CollectFrom(results[1..]);
      forall x | x in Collect(results)
        ensures Some(x) in results
      {
        if x in Collect(results[1..]) {
          assert Some(x) in results[1..];
        }
      }
    }
  }

  /** Filtering a concatenation filters each part, keeping the order. */
  lemma {:induction false} CollectAppend<T>(xs: seq<Option<T>>, ys: seq<Option<T>>)
    ensures Collect(xs + ys) == Collect(xs) + Collect(ys)
  {
    if xs == [] {
      assert xs + ys == ys;
    } else {
      assert (xs + ys)[0] == xs[0] && (xs + ys)[1..] == xs[1..] + ys;
      CollectAppend(xs[1..], ys);
    }
  }

  /** When no result is empty, the i-th kept value is the i-th result. */
  lemma {:induction false} CollectAll<T>(results: seq<Option<T>>)
    requires forall i :: 0 <= i < |results| ==> results[i].Some?
    ensures |Collect(results)| == |results|
    ensures forall i :: 0 <= i < |results| ==> Some(Collect(results)[i]) == results[i]
  {
    if results != [] {
      var tail := results[1..];
      assert forall i :: 0 <= i < |tail| ==> tail[i] == results[i + 1];
      CollectAll(tail);
      var kept := Collect(results);
      assert kept == [results[0].value] + Collect(tail);
      forall i | 0 <= i < |results|
        ensures Some(kept[i]) == results[i]
      {
        if i > 0 {
          assert kept[i] == Collect(tail)[i - 1];
        }
      }
    }
  }

  /** When every result is empty, nothing is kept. */
  lemma {:induction false} CollectNone<T>(results: seq<Option<T>>)
    requires forall i :: 0 <= i < |results| ==> results[i].None?
    ensures Collect(results) == []
  {
    if results != [] {
      assert forall i :: 0 <= i < |results[1..]| ==> results[1..][i] == results[i + 1];
      CollectNone(results[1..]);
    }
  }

  /** `xs.map(f)`. */
  function Map<A, B>(xs: seq<A>, f: A -> B): (ys: seq<B>)
    ensures |ys| == |xs|
    ensures forall i :: 0 <= i < |xs| ==> ys[i] == f(xs[i])
  {
    seq(|xs|, i requires 0 <= i < |xs| => f(xs[i]))
  }

  /** Mapping a concatenation maps each part. */
  lemma MapAppend<A, B>(xs: seq<A>, ys: seq<A>, f: A -> B)
    ensures Map(xs + ys, f) == Map(xs, f) + Map(ys, f)
  {
    var l, r := Map(xs + ys, f), Map(xs, f) + Map(ys, f);
    forall i | 0 <= i < |l|
      ensures l[i] == r[i]
    {
      if i < |xs| {
        assert (xs + ys)[i] == xs[i];
      } else {
        assert (xs + ys)[i] == ys[i - |xs|];
      }
    }
  }

  /** `objects.map((object) => downloadDocument(objectType, object, options))`. */
  function Downloads(objectType: ObjectType, records: seq<Record>, options: Options, call: Endpoint -> Response, libs: Libraries)
    : (results: seq<Option<Document>>)
    ensures |results| == |records|
    ensures forall i :: 0 <= i < |records| ==> results[i] == DownloadDocument(objectType, records[i], options, call, libs)
  {
    Map(records, Download(objectType, options, call, libs))
  }

  /** `downloadDocument` with everything but the record fixed. */
  function Download(objectType: ObjectType, options: Options, call: Endpoint -> Response, libs: Libraries)
    : (download: Record -> Option<Document>)
    ensures forall r :: download(r) == DownloadDocument(objectType, r, options, call, libs)
  {
    r => DownloadDocument(objectType, r, options, call, libs)
  }

  /** `downloadDocuments`: downloads every record, then keeps the documents that came back,
      in record order. N records of which K yield nothing give N - K documents. */
  function DownloadDocuments(objectType: ObjectType, records: seq<Record>, options: Options, call: Endpoint -> Response, libs: Libraries)
    : (documents: seq<Document>)
    ensures |documents| == |records| - Absent(Downloads(objectType, records, options, call, libs))
  {
    Collect(Downloads(objectType, records, options, call, libs))
  }

  /** Every document is the download of one of the records. */
  lemma DownloadedComeFromRecords(
    objectType: ObjectType, records: seq<Record>, options: Options, call: Endpoint -> Response, libs: Libraries)
    ensures forall d :: d in DownloadDocuments(objectType, records, options, call, libs) ==>
      exists i :: 0 <= i < |records| && DownloadDocument(objectType, records[i], options, call, libs) == Some(d)
  {
    var results := Downloads(objectType, records, options, call, libs);
    CollectFrom(results);
    forall d | d in DownloadDocuments(objectType, records, options, call, libs)
      ensures exists i :: 0 <= i < |records| && DownloadDocument(objectType, records[i], options, call, libs) == Some(d)
    {
      var i :| 0 <= i < |results| && results[i] == Some(d);
    }
  }

  /** Downloading a concatenation downloads each part: documents keep the record order. */
  lemma DownloadDocumentsAppend(
    objectType: ObjectType, xs: seq<Record>, ys: seq<Record>, options: Options, call: Endpoint -> Response, libs: Libraries)
    ensures DownloadDocuments(objectType, xs + ys, options, call, libs)
         == DownloadDocuments(objectType, xs, options, call, libs) + DownloadDocuments(objectType, ys, options, call, libs)
  {
    var download := Download(objectType, options, call, libs);
    MapAppend(xs, ys, download);
    CollectAppend(Map(xs, download), Map(ys, download));
  }

  /** When every record yields a document, the i-th document is the i-th record's. */
  lemma DownloadDocumentsAll(
    objectType: ObjectType, records: seq<Record>, options: Options, call: Endpoint -> Response, libs: Libraries)
    requires forall i :: 0 <= i < |records| ==> DownloadDocument(objectType, records[i], options, call, libs).Some?
    ensures var documents := DownloadDocuments(objectType, records, options, call, libs);
      |documents| == |records|
      && forall i :: 0 <= i < |records| ==> Some(documents[i]) == DownloadDocument(objectType, records[i], options, call, libs)
  {
    CollectAll(Downloads(objectType, records, options, call, libs));
  }

  /** An unknown object type downloads nothing. */
  lemma DownloadUnknownType(records: seq<Record>, options: Options, call: Endpoint -> Response, libs: Libraries)
    ensures DownloadDocuments(OtherType, records, options, call, libs) == []
  {
    CollectNone(Downloads(OtherType, records, options, call, libs));
  }

  // ---------------------------------------------------------------------------
  // buildVoucherReportData and buildInvoiceReportData

  /** "AR" tags voucher rows, "ER" invoice rows. */
  datatype RowType = AR | ER

  /** A journal row. `payDate` None stands for `new Date(null)`, the epoch. */
  datatype ReportRow = ReportRow(
    rowType: RowType,
    date: Instant,
    number: Option<string>,
    contact: string,
    payDate: Option<Instant>,
    paidAmount: real,
    categories: seq<string>,
    filename: string)

  /** The TypeError thrown when a property of `undefined` is read. */
  datatype TypeError = CannotReadProperty(property: string)

  /** `supplierNameAtSave || supplierName || supplier.name || ""`; reading the name of
      a missing supplier throws. */
  function VoucherContact(v: Voucher): Result<string, TypeError>
  {
    if Present(v.supplierNameAtSave) then Success(v.supplierNameAtSave.value)
    else if Present(v.supplierName) then Success(v.supplierName.value)
    else match v.supplier
      case None => Failure(CannotReadProperty("name"))
      case Some(supplier) => Success(OrElse(supplier.name, ""))
  }

  /** The row for one voucher, or the error building it throws. */
  function VoucherRow(v: Voucher, options: Options, libs: Libraries): Result<ReportRow, TypeError>
  {
    match VoucherContact(v)
    case Failure(e) => Failure(e)
    case Success(contact) =>
      match v.positions
      case None => Failure(CannotReadProperty("map"))
      case Some(positions) =>
        Success(ReportRow(AR, v.voucherDate, v.description, contact, v.payDate, v.paidAmount,
                          GetCategories(positions), DocumentFileName(VoucherRecord(v), Vouchers, options, libs)))
  }

  /** `addressName || contact.name || ""`; reading the name of a missing contact throws. */
  function InvoiceContact(inv: Invoice): Result<string, TypeError>
  {
    if Present(inv.addressName) then Success(inv.addressName.value)
    else match inv.contact
      case None => Failure(CannotReadProperty("name"))
      case Some(contact) => Success(OrElse(contact.name, ""))
  }

  /** The row for one invoice, or the error building it throws. */
  function InvoiceRow(inv: Invoice, options: Options, libs: Libraries): Result<ReportRow, TypeError>
  {
    match InvoiceContact(inv)
    case Failure(e) => Failure(e)
    case Success(contact) =>
      Success(ReportRow(ER, inv.invoiceDate, inv.invoiceNumber, contact, inv.payDate, inv.paidAmount,
                        [], DocumentFileName(InvoiceRecord(inv), Invoices, options, libs)))
  }

  /** `buildVoucherReportData`: one row per voucher, in order; the first voucher whose
      row cannot be built makes the whole call throw. */
  method BuildVoucherReportData(vouchers: seq<Voucher>, options: Options, libs: Libraries)
    returns (report: Result<seq<ReportRow>, TypeError>)
    ensures report.Success? <==> forall i :: 0 <= i < |vouchers| ==> VoucherRow(vouchers[i], options, libs).Success?
    ensures report.Success? ==>
      |report.value| == |vouchers|
      && forall i :: 0 <= i < |vouchers| ==> VoucherRow(vouchers[i], options, libs) == Success(report.value[i])
    ensures report.Failure? ==>
      exists i :: 0 <= i < |vouchers| && VoucherRow(vouchers[i], options, libs) == Failure(report.error)
                  && forall j :: 0 <= j < i ==> VoucherRow(vouchers[j], options, libs).Success?
  {
    var reportData: seq<ReportRow> := [];
    for i := 0 to |vouchers|
      invariant |reportData| == i
      invariant forall j :: 0 <= j < i ==> VoucherRow(vouchers[j], options, libs) == Success(reportData[j])
    {
      var voucher := vouchers[i];
      var contact: string;
      if Present(voucher.supplierNameAtSave) {
        contact := voucher.supplierNameAtSave.value;
      } else if Present(voucher.supplierName) {
        contact := voucher.supplierName.value;
      } else if voucher.supplier.None? {
        return Failure(CannotReadProperty("name"));
      } else {
        contact := OrElse(voucher.supplier.value.name, "");
      }
      if voucher.positions.None? {
        return Failure(CannotReadProperty("map"));
      }
      var filename := GetDocumentFileName(VoucherRecord(voucher), Vouchers, options, libs);
      reportData := reportData + [ReportRow(AR, voucher.voucherDate, voucher.description, contact, voucher.payDate,
                                            voucher.paidAmount, GetCategories(voucher.positions.value), filename)];
    }
    return Success(reportData);
  }

  /** `buildInvoiceReportData`: one row per invoice, in order; the first invoice whose
      row cannot be built makes the whole call throw. */
  method BuildInvoiceReportData(invoices: seq<Invoice>, options: Options, libs: Libraries)
    returns (report: Result<seq<ReportRow>, TypeError>)
    ensures report.Success? <==> forall i :: 0 <= i < |invoices| ==> InvoiceRow(invoices[i], options, libs).Success?
    ensures report.Success? ==>
      |report.value| == |invoices|
      && forall i :: 0 <= i < |invoices| ==> InvoiceRow(invoices[i], options, libs) == Success(report.value[i])
    ensures report.Failure? ==>
      exists i :: 0 <= i < |invoices| && InvoiceRow(invoices[i], options, libs) == Failure(report.error)
                  && forall j :: 0 <= j < i ==> InvoiceRow(invoices[j], options, libs).Success?
  {
    var reportData: seq<ReportRow> := [];
    for i := 0 to |invoices|
      invariant |reportData| == i
      invariant forall j :: 0 <= j < i ==> InvoiceRow(invoices[j], options, libs) == Success(reportData[j])
    {
      var invoice := invoices[i];
      var contact: string;
      if Present(invoice.addressName) {
        contact := invoice.addressName.value;
      } else if invoice.contact.None? {
        return Failure(CannotReadProperty("name"));
      } else {
        contact := OrElse(invoice.contact.value.name, "");
      }
      var filename := GetDocumentFileName(InvoiceRecord(invoice), Invoices, options, libs);
      reportData := reportData + [ReportRow(ER, invoice.invoiceDate, invoice.invoiceNumber, contact, invoice.payDate,
                                            invoice.paidAmount, [], filename)];
    }
    return Success(reportData);
  }

  /** A voucher row is tagged "AR", carries the categories of the voucher's positions, one
      per position, and the document filename of the voucher, which is also the name its
      downloaded document is saved under. */
  lemma VoucherRowFacts(v: Voucher, options: Options, call: Endpoint -> Response, libs: Libraries)
    requires VoucherRow(v, options, libs).Success?
    ensures var row := VoucherRow(v, options, libs).value;
      row.rowType == AR && row.date == v.voucherDate && row.payDate == v.payDate
      && v.positions.Some? && row.categories == GetCategories(v.positions.value)
      && |row.categories| == |v.positions.value|
      && row.filename == DocumentFileName(VoucherRecord(v), Vouchers, options, libs)
      && (forall d :: DownloadDocument(Vouchers, VoucherRecord(v), options, call, libs) == Some(d) ==> d.fileName == row.filename)
  {
  }

  /** An invoice row is tagged "ER", has no categories, and carries the document filename
      of the invoice, which is also the name its downloaded document is saved under. */
  lemma InvoiceRowFacts(inv: Invoice, options: Options, call: Endpoint -> Response, libs: Libraries)
    requires InvoiceRow(inv, options, libs).Success?
    ensures var row := InvoiceRow(inv, options, libs).value;
      row.rowType == ER && row.date == inv.invoiceDate && row.categories == []
      && row.filename == DocumentFileName(InvoiceRecord(inv), Invoices, options, libs)
      && (forall d :: DownloadDocument(Invoices, InvoiceRecord(inv), options, call, libs) == Some(d) ==> d.fileName == row.filename)
  {
  }

  /** The report names a voucher's contact with the opposite precedence to the filename:
      when both supplier names are set and differ, the row shows the name at save while
      the filename carries the current supplier name. */
  lemma VoucherContactPrecedence(v: Voucher, options: Options, libs: Libraries)
    requires Present(v.supplierName) && Present(v.supplierNameAtSave)
    requires v.positions.Some?
    ensures VoucherRow(v, options, libs).Success?
    ensures VoucherRow(v, options, libs).value.contact == v.supplierNameAtSave.value
    ensures DisplayName(VoucherRecord(v), Vouchers) == v.supplierName.value
  {
  }

  /** Vouchers as `getVouchers` returns them always carry positions, so building their
      report can only fail on a voucher with no supplier name and no supplier object. */
  lemma FetchedVouchersReport(
    startPayDate: int, endPayDate: int,
    listVouchers: VoucherQuery -> Result<seq<Voucher>, string>,
    listPositions: Id -> Result<seq<Position>, string>,
    options: Options, libs: Libraries)
    requires GetVouchers(startPayDate, endPayDate, listVouchers, listPositions).Success?
    ensures var vouchers := GetVouchers(startPayDate, endPayDate, listVouchers, listPositions).value;
      forall i :: 0 <= i < |vouchers| ==>
        (VoucherRow(vouchers[i], options, libs).Failure? <==>
           !Present(vouchers[i].supplierNameAtSave) && !Present(vouchers[i].supplierName) && vouchers[i].supplier.None?)
  {
  }
}
