# sevdesk-export: record selection and document naming, in Dafny

sevdesk-export is a command-line tool. It fetches vouchers (incoming documents) and
invoices (outgoing documents) from the sevDesk bookkeeping API for a pay-date range,
then downloads their attached documents. It saves each document under a deterministic
filename and can write a journal of the exported records. This project models the part
of the tool that decides which records are exported and what each exported file is called.

- `wrappers.dfy`: `Option` for JavaScript's `null`, and `Result` for calls that throw.
- `text.dfy`: the JavaScript string built-ins the code relies on: `join`,
  `split(c).pop()` and decimal rendering. It also defines the code-point order of names,
  the order in which a file listing sorts the exported files. Each comes with the lemmas
  the other modules need: join splitting, suffix extraction, padded-digit round trips
  and order.
- `records.dfy`: the data model. It covers vouchers, invoices, positions, the embedded
  document descriptor and the calendar dates they carry. It also states JavaScript
  truthiness for nullable fields: a string counts as present when it is non-empty, and
  an id when it is a non-empty text or a non-zero number.
- `helper.dfy` models `src/helper.mjs`. It covers `dateToString`, `buildDocumentFileName`
  (a method that pushes the parts one by one), `getCategories`, and the effect of
  `deleteAllFilesInDirectory` on a directory, as a class.
- `sevdesk.dfy` models `src/sevdesk.mjs`:
  - `getDocumentFileName`, a method that reassigns name, extra info and extension in turn;
  - the invoice window and pay-date filter of `getInvoices`;
  - `getVouchers` and `getVoucherPositions`;
  - `downloadDocument` and `downloadDocuments`;
  - the two report builders, as methods with loops.

The network is a set of function parameters. Each list endpoint maps a query to a
`Result`, and each download endpoint maps an `Endpoint` to a `Response`. The two
foreign libraries, `sanitize-filename` and Node's base64 `Buffer.from`, are function
values in a `Libraries` value. A JavaScript `Date` is an `Instant`: milliseconds since
the epoch, together with the local calendar date the host's time zone assigns to it.

Two facts about the code are worth stating up front:
- The filename prefers `supplierName`, while the journal row prefers `supplierNameAtSave`
  (`VoucherContactPrecedence`).
- A row builder throws a TypeError when it reads a property of a missing `supplier`,
  `positions` or `contact` (src/sevdesk.mjs:252, 256 and 279). The model returns `Failure`
  in these cases.

## Model

| member | source | states |
|---|---|---|
| Helper.DateToString | src/helper.mjs:11-15 | For a year from 0 to 9999, the date text has 10 characters and parses back to the local calendar date of the instant |
| Helper.DateStringRoundTrip | src/helper.mjs:11-15 | For years 0 to 9999 the date text has 10 characters, `-` at indices 4 and 7 and digits elsewhere, and it parses back to the same calendar date |
| Helper.ParsedDateFormatsBack | src/helper.mjs:11-15 | Every well-formed `YYYY-MM-DD` text that names a valid date is the formatting of that date, so formatting is a bijection onto well-formed date texts |
| Helper.DateTextSortable | src/helper.mjs:48-51 | For four-digit years, date texts compare in code-point order exactly as the dates compare in time (the "sortable" pay-date prefix) |
| Helper.BuildDocumentFileName | src/helper.mjs:55-72 | Pushing the present parts one by one and joining them gives `Join(parts, "-") + "." + extension`, and the result always ends in a dot and the extension |
| Helper.FileNamePartsArePresentCandidates | src/helper.mjs:56-69 | The parts are exactly the non-empty candidates in the fixed order date, name, id, extra info; an absent date or id, an empty name and empty extra info are skipped |
| Helper.FileNameWithoutParts | src/helper.mjs:55-71 | With no date, no name, no id and no extra info, the filename is just `"." + extension` |
| Helper.DefaultExtensionName | src/helper.mjs:55-70 | Called with the default extension `".pdf"`, the filename ends in `"..pdf"` |
| Helper.FileNameIdUnique | src/helper.mjs:63-65 | The id makes the name unique: two names that agree in every other argument and carry present ids are equal only if the ids are written alike |
| Helper.NumberIdTextInjective | src/helper.mjs:63-64 | Distinct numeric ids are written as distinct texts |
| Helper.FileNameStartsWithDate | src/helper.mjs:57-59 | A name built with a pay date begins with that date's text |
| Helper.FileNamesSortByPayDate | src/helper.mjs:48-72 | For four-digit years, a document paid earlier gets a name that sorts before that of a document paid later, whatever the other parts are |
| Helper.GetCategories | src/helper.mjs:80-86 | One category per position, in order; element i is the accounting-type name of position i, or `""` when that name is missing or empty |
| Helper.GetCategoriesAppend | src/helper.mjs:80-86 | The categories of concatenated position lists are the concatenated categories, so order is preserved |
| Helper.FilesToDelete | src/helper.mjs:31-33 | A name is selected exactly when some listed entry with that name is a regular file whose name does not start with `.` |
| Helper.DeletionSparesOthers | src/helper.mjs:31-41 | After deletion, every directory, hidden file and other entry is still present and nothing new appears. A non-hidden regular file remains only if its unlink failed |
| Helper.Directory.DeleteAllFiles | src/helper.mjs:23-46 | For a directory that lists each name once: returns true exactly when the listing and every unlink succeed, and never throws. A failed listing changes nothing; otherwise every selected file whose unlink succeeds is removed, even after another unlink has failed |
| Text.LastSegmentSplit | src/sevdesk.mjs:214-218 | `split(".").pop()` gives a dot-free suffix, which differs from the whole filename exactly when the filename contains a dot; in that case a dot stands right before it |
| Sevdesk.GetDocumentFileName | src/sevdesk.mjs:194-231 | Settling name, extra info and extension in turn, building the name and sanitising it gives the documented name of the record |
| Sevdesk.ExtensionRule | src/sevdesk.mjs:209-220 | The extension defaults to `"pdf"`; `document.extension` replaces it; the text after the last dot of `document.filename` replaces both whenever the filename contains a dot, and then the filename ends in `"." + extension` |
| Sevdesk.NameRule | src/sevdesk.mjs:196-203 | For vouchers the name is `supplierName`, else `supplierNameAtSave`, else `""`; for invoices it is `addressName`, else `""`; for any other type it is `""` |
| Sevdesk.ExtraInfoRule | src/sevdesk.mjs:205-207 | Extra info is non-empty only when the option is set and the record has at least one position, and then it is the categories joined by `,`; invoices never get any |
| Sevdesk.RawFileNameIdUnique | src/sevdesk.mjs:222-228 | Two records with differently written present ids get different names before sanitising when all their other parts agree |
| Sevdesk.InvoiceQueryWindow | src/sevdesk.mjs:98-99 | The query window is `[start - 2*(end - start), end]`: it ends at `end`, spans three times the range, and starts no later than `start` when `start <= end` |
| Sevdesk.PaidInRange | src/sevdesk.mjs:110-119 | Keeps exactly the fetched invoices whose pay date is present and lies in `[start, end]` inclusive, and never more than were fetched |
| Sevdesk.GetInvoices | src/sevdesk.mjs:97-125 | A failed call is rethrown with its message. Otherwise an invoice is returned exactly when it was fetched from the widened window and was paid in range |
| Sevdesk.PaidInRangeIsSubsequence | src/sevdesk.mjs:110-121 | The filtered list is an order-preserving subsequence of the fetched list |
| Sevdesk.PaidInRangeAppend | src/sevdesk.mjs:110-121 | Filtering a concatenation is concatenating the filtered parts |
| Sevdesk.PaidInRangeIdempotent | src/sevdesk.mjs:110-121 | Filtering twice equals filtering once |
| Sevdesk.GetVoucherPositions | src/sevdesk.mjs:68-82 | The positions the call returns, or none when the call fails |
| Sevdesk.WithPositions | src/sevdesk.mjs:45-53 | One voucher per fetched voucher, in order; each is the fetched voucher with its positions attached |
| Sevdesk.GetVouchers | src/sevdesk.mjs:36-58 | A failed primary call is rethrown with its message. Otherwise there is one voucher per fetched voucher, in order, unchanged except that it carries positions, which are `[]` when the positions call failed |
| Sevdesk.DownloadDocument | src/sevdesk.mjs:158-192 | A record yields a document exactly when its type is known and the endpoint answers with a payload. The content is base64-decoded exactly when `base64Encoded` is set, and the name is `getDocumentFileName` of the record |
| Sevdesk.Collect | src/sevdesk.mjs:146 | Filtering out the empty downloads keeps all but the empty ones: N results of which K are empty leave N - K |
| Sevdesk.CollectFrom | src/sevdesk.mjs:146 | Every kept value is one of the results |
| Sevdesk.CollectAppend | src/sevdesk.mjs:146 | Filtering a concatenation concatenates the filtered parts, so order is kept |
| Sevdesk.CollectAll | src/sevdesk.mjs:146 | When no result is empty, the i-th kept value is the i-th result |
| Sevdesk.CollectNone | src/sevdesk.mjs:146 | When every result is empty, nothing is kept |
| Sevdesk.MapAppend | src/sevdesk.mjs:139-141 | Mapping a concatenation maps each part |
| Sevdesk.DownloadDocuments | src/sevdesk.mjs:136-147 | N records of which K yield nothing give N - K documents |
| Sevdesk.DownloadedComeFromRecords | src/sevdesk.mjs:139-146 | Each document is the download of one of the records |
| Sevdesk.DownloadDocumentsAppend | src/sevdesk.mjs:139-146 | Downloading a concatenation gives the documents of each part in turn, so record order is kept |
| Sevdesk.DownloadDocumentsAll | src/sevdesk.mjs:136-147 | When every record yields a document, document i is record i's |
| Sevdesk.DownloadUnknownType | src/sevdesk.mjs:162-173 | An unknown object type yields no documents at all |
| Sevdesk.BuildVoucherReportData | src/sevdesk.mjs:241-261 | One row per voucher, in order. The call throws exactly when some voucher's row cannot be built, and then with the error of the first such voucher |
| Sevdesk.BuildInvoiceReportData | src/sevdesk.mjs:271-287 | One row per invoice, in order. The call throws exactly when some invoice's row cannot be built, and then with the error of the first such invoice |
| Sevdesk.VoucherRowFacts | src/sevdesk.mjs:243-258 | A voucher row has type `"AR"` and the voucher's dates. Its categories are `getCategories` of the positions, one per position. Its filename is the document filename of the voucher, which is also the name its downloaded document gets |
| Sevdesk.InvoiceRowFacts | src/sevdesk.mjs:273-284 | An invoice row has type `"ER"`, the invoice date and no categories. Its filename is the document filename of the invoice, which is also the name its downloaded document gets |
| Sevdesk.VoucherContactPrecedence | src/sevdesk.mjs:249-253 | When both supplier names are set, the row's contact is `supplierNameAtSave` while the filename carries `supplierName`, the reverse precedence |
| Sevdesk.FetchedVouchersReport | src/sevdesk.mjs:249-256 | Vouchers returned by `getVouchers` always carry positions. Building their rows therefore fails exactly for a voucher that has no supplier name, no name at save and no supplier object |

## Left out

- HTTP calls (`makeApiCall`, axios, the bearer token) are function parameters. The unbounded parallel fan-out of `Promise.all` becomes a sequential map that keeps input order.
- The query parameters are sent as `getTime() / 1000`, floating-point seconds. The model keeps the windows in integer milliseconds.
- `dateToString`'s time-zone correction is not modelled. The same holds for `toISOString` on a shifted date and for the parsing of `new Date(...)`. An `Instant` carries its local calendar date directly. An unparsable date string and the RangeError it would cause are not modelled.
- `sanitize-filename` and Node's base64 decoding are taken as given functions. Filename properties are stated before sanitising.
- `customFormat` is not modelled; it only calls date-fns with the German locale.
- `src/index.mjs` is not modelled: CLI parsing, environment variables, spinners, exit codes and the default previous-month range.
- `src/files.mjs` is not modelled. The storage provider, directory preparation and the CSV writer are not part of this model.
- `deleteAllFilesInDirectory` keeps only the selection and its effect on the directory listing. `path.join`, the callback plumbing and errors other than a failed listing or a failed unlink are not modelled.
- Helper.IdText: numeric ids are rendered as plain decimal integers. JavaScript's exponent notation for magnitudes of 1e21 and above, and non-integer ids, are not modelled.
- Helper.GetCategories: every position carries its embedded accounting type. A position without one would make `getCategories` throw, and that case is not modelled.
- Amounts (`paidAmount`) are JavaScript numbers, modelled as `real`. They are only copied into rows, never computed with.
- Sevdesk.GetVoucherPositions: a successful positions call is taken to carry an `objects` list. The code returns `result.data.objects` unchecked (src/sevdesk.mjs:77), so a success response without `objects` would leave `positions` undefined, and the voucher's report row would then throw. Sevdesk.FetchedVouchersReport rests on this assumption.
- Records.LocalDate bounds only the year. A few days at either end of the first and last years, such as 275760-12-31 and -271821-01-01, are admitted, though no JavaScript `Date` holds them.
- A journal row's `payDate` of `None` stands for `new Date(null)`, the epoch. The model does not give that instant a local calendar date.
