# Print shop quote and cake order ledger, modelled in Dafny

This project models the computational core of two small Streamlit shop apps.

The print shop (`app.py`):

- prices a print job per page. Glossy paper costs 20, full colour 10, anything else 2.
- counts the pages of the uploaded files. A PDF counts its page count, another file counts one page, and a PDF that cannot be read counts nothing.
- checks the order form for missing name, phone or files.
- shows a live quote.

The cake studio (`CakeApp/app.py`) keeps its orders in one spreadsheet. Every operation reads the whole sheet. Those that change it, `save_order` and `update_status`, write the whole sheet back:

- `get_all_orders` reads the ledger and coerces the ids.
- `save_order` appends an order under the next free id.
- `update_status` rewrites the status, payment and amount of the orders with a given id.
- `get_orders_by_phone` finds a customer's orders through a lenient phone key and lists them newest first.
- `calculate_cake_price` and `auto_rename_file` are pure helpers of the order form.

Modules:

| file | module | models |
|---|---|---|
| `wrappers.dfy` | `Wrappers` | `Option`, standing for Python's `None` |
| `seqs.dfy` | `Seqs` | order-preserving filtering, which is boolean-mask selection on a data frame |
| `text.dfy` | `Text` | `str.strip`, `str.isalnum`, the regex class `\D`, and integer rendering and parsing |
| `print_quote.dfy` | `PrintQuote` | `app.py` |
| `cake_pricing.dfy` | `CakePricing` | the cake price rule and file renaming of `CakeApp/app.py` |
| `order_ledger.dfy` | `OrderLedger` | the ledger operations of `CakeApp/app.py` |
| `order_lookup.dfy` | `OrderLookup` | the phone lookup of `CakeApp/app.py` |

Outside effects become data:

- The spreadsheet read arrives as a `SheetRead` value: `ReadFailed`, or the sheet with its column names and raw rows. A write is the `Sheet` a function returns.
- The current time that `save_order` stamps on an order is the `date` parameter.
- What the PDF library makes of an upload is a field of the upload: a page count or a failure.
- A call of `update_status` that writes nothing returns `None`.

The lookup key of `normalize_phone` only trims surrounding whitespace and drops one trailing ".0" (CakeApp/app.py:91-94). `OrderLookup.DashedQueryMissesStoredPhone` shows the consequence: a query typed with dashes does not find a phone that `save_order` stored digits-only.

## Model

| member | source | states |
|---|---|---|
| `PrintQuote.Rate` | app.py:124-135 | The per-page rate is one of 2, 10 and 20. It is 20 exactly when the paper is "Glossy", and 10 exactly when the paper is not glossy and the mode is "Full Color". |
| `PrintQuote.CalculatePrice` | app.py:123-137 | Glossy paper costs pages × 20 whatever the colour mode. Non-glossy "Full Color" costs pages × 10. Every other mode on non-glossy paper costs pages × 2. |
| `PrintQuote.PriceOrdering` | app.py:124-137 | For pages ≥ 0 the price is non-negative, it is 0 for zero pages on every paper and mode, and black and white ≤ colour ≤ glossy for the same page count. |
| `PrintQuote.PriceLogicPaper` | app.py:347 | The views turn every paper choice into "Glossy" or "Standard", and into "Glossy" exactly when the choice is "Glossy". |
| `PrintQuote.QuoteDependsOnlyOnGlossiness` | app.py:347-348 | Mapping the paper choice does not change the price. Two choices that are both glossy, or both not glossy, give the same quote. |
| `PrintQuote.TotalPagesDecomposes` | app.py:139-157 | The total over the files equals the pages of the readable PDFs plus one per non-PDF file. Unreadable PDFs add nothing. |
| `PrintQuote.CountPages` | app.py:139-157 | The total is the readable PDFs' pages plus the number of non-PDF files. There is one detail line per file, in upload order, describing that file. |
| `PrintQuote.MissingFields` | app.py:364-367 | "Name", "Phone" and "Files" are each listed exactly when their input is empty. Only those names appear, and they come in form order without repeats. |
| `PrintQuote.Submit` | app.py:364-370 | The order is sent exactly when name, phone and files are all present. Otherwise it is rejected with the non-empty list of missing fields. |
| `PrintQuote.LiveQuote` | app.py:317-348 | The live quote is the price of the detected pages, which are readable-PDF pages plus one per other file. It is non-negative, and 0 when nothing is uploaded. |
| `Text.StripNonDigits` | CakeApp/app.py:57 | The result holds only digits, each digit as often as in the input. A digit-only input is returned unchanged. |
| `Text.StripNonDigitsAppend` | CakeApp/app.py:57 | The digits kept from `a + b` are those kept from `a` followed by those kept from `b`, so the digits keep their input order. |
| `Text.KeepAlnum` | CakeApp/app.py:186 | The result holds only letters and digits, each as often as in the input. An input of letters and digits is returned unchanged. |
| `Text.KeepAlnumAppend` | CakeApp/app.py:186 | The characters kept from `a + b` are those kept from `a` followed by those kept from `b`, so they keep their input order. |
| `Text.TrimStart` | CakeApp/app.py:92 | The result is a suffix of the input. What was removed is whitespace, and the result does not start with whitespace. |
| `Text.TrimEnd` | CakeApp/app.py:92 | The result is a prefix of the input. What was removed is whitespace, and the result does not end with whitespace. |
| `Text.TrimOfPadded` | CakeApp/app.py:92 | Stripping text padded with whitespace on both sides gives back exactly that text, when the text neither starts nor ends with whitespace. |
| `Text.Trim` | CakeApp/app.py:92 | The result is no longer than the input and neither starts nor ends with whitespace. |
| `Text.TrimRemovesOnlySurroundingSpace` | CakeApp/app.py:92 | The stripped text is a slice of the input with nothing but whitespace before it and after it. With `Text.TrimOfPadded` this is exactly `str.strip`. |
| `Text.NatToString` | CakeApp/app.py:188 | A natural number renders as a non-empty string of digits without a leading zero. |
| `Text.NatToStringRoundTrip` | CakeApp/app.py:188 | Reading the rendered digits back gives the number. |
| `Text.IntToString` | CakeApp/app.py:188 | Any integer renders as a non-empty text. A non-negative one renders as digits only, and a negative one as a minus sign followed by at least one digit. |
| `Text.IntToStringRoundTrip` | CakeApp/app.py:188 | Parsing the rendering of any integer, negative ones included, gives that integer back. |
| `Text.IntToStringInjective` | CakeApp/app.py:188 | Distinct order ids render differently. |
| `Text.ParseInt` | CakeApp/app.py:34 | A text is a number exactly when it is an optional minus sign followed by at least one digit. Plain digits give a non-negative value and a minus sign a non-positive one. A text in canonical form, such as `str` writes, is exactly the rendering of the value it parses to. `Text.ParseIntLeadingZero` and `Text.ParseIntNegative` fix the value of every other accepted text. |
| `Text.CanonicalDigitsRoundTrip` | CakeApp/app.py:34 | Digits without a superfluous leading zero are the rendering of the number they denote. |
| `Text.LeadingZeroAddsNothing` | CakeApp/app.py:34 | Putting a '0' before a digit string leaves a digit string that denotes the same number. |
| `Text.ParseIntLeadingZero` | CakeApp/app.py:34 | A leading zero before digits does not change the parsed value, so "007" reads as 7. |
| `Text.ParseIntNegative` | CakeApp/app.py:34 | A minus sign before digits parses to the negation of the digits' value, so "-0" reads as 0 and "-007" as -7. |
| `Seqs.Filter` | CakeApp/app.py:98 | Selection keeps exactly the rows satisfying the mask, each as often as in the input, and never makes the table longer. |
| `CakePricing.FlavorRate` | CakeApp/app.py:108-114 | A menu flavour costs its listed rate per kg and an unknown one 400. Every rate lies between 400 and 600. |
| `CakePricing.ShapeCost` | CakeApp/app.py:115 | A listed shape costs its premium and an unknown one 0. Every premium lies between 0 and 100. |
| `CakePricing.CalculateCakePrice` | CakeApp/app.py:179-183 | For a non-negative weight the price lies between 400 × weight + 50 per add-on and 600 × weight + 100 + 50 per add-on. |
| `CakePricing.AddingToppingAddsFifty` | CakeApp/app.py:182 | One more add-on raises the price by exactly 50. |
| `CakePricing.ToppingsCountOnly` | CakeApp/app.py:182 | Two add-on lists of the same length give the same price. |
| `CakePricing.UnknownChoicesFallBack` | CakeApp/app.py:180-181 | An unknown flavour and shape are priced as Vanilla Dream and Round. |
| `CakePricing.HeavierCostsMore` | CakeApp/app.py:180 | A heavier cake of the same design never costs less. |
| `CakePricing.SplitExt` | CakeApp/app.py:187 | Root and extension concatenate back to the path. The extension is empty, or a dot followed by neither dots nor slashes. |
| `CakePricing.SplitExtFindsExtension` | CakeApp/app.py:187 | A path has an extension exactly when its last component has a dot after some non-dot character. |
| `CakePricing.AutoRenameFile` | CakeApp/app.py:185-188 | The new name starts with "CAKE_" and keeps the upload's extension. |
| `CakePricing.RenamedFilesIdentifyOrder` | CakeApp/app.py:185-188 | Equal new names imply equal order ids, equal cleaned customer names and equal extensions, so photos of different orders never share a name. |
| `OrderLedger.Export` | CakeApp/app.py:71-72 | The written sheet has exactly the ledger's nine columns and one row per order. `OrderLedger.ReadBackWritten` reads it back as the same table. |
| `OrderLedger.TruncateToInt` | CakeApp/app.py:34 | Converting a number to an integer truncates toward zero. |
| `OrderLedger.CoerceId` | CakeApp/app.py:34 | Numeric ids are truncated. Text that spells an integer becomes that integer, and any other text becomes 0. |
| `OrderLedger.GetAllOrders` | CakeApp/app.py:26-37 | A failed read, an empty frame or a frame missing an expected column all give the empty table. Otherwise each sheet row becomes one order, in order, with its id coerced and its other cells as read. |
| `OrderLedger.ReadBackWritten` | CakeApp/app.py:26-37 | Reading a sheet that holds a written table gives that table back. |
| `OrderLedger.TextIdsReadBack` | CakeApp/app.py:34 | An id stored as its decimal text is read back as that id. |
| `OrderLedger.MaxId` | CakeApp/app.py:45 | The maximum bounds every id of a non-empty table and is one of them. |
| `OrderLedger.NextId` | CakeApp/app.py:43-50 | The next id is 1 for an empty table. Otherwise it is one more than an existing id and exceeds every id. |
| `OrderLedger.CleanPhone` | CakeApp/app.py:56-57 | The stored phone is the input without its non-digits; an empty phone stays empty. |
| `OrderLedger.SaveOrder` | CakeApp/app.py:39-73 | The returned id is 1 on an empty table, and otherwise the largest id plus 1, exceeding all others. Exactly one row is appended and earlier rows are unchanged. The new row has the date, the digits-only phone, "Order Received" and "Unpaid". |
| `OrderLedger.SaveKeepsIdsUnique` | CakeApp/app.py:43-71 | If the ids were unique before a save, they are unique after it. |
| `OrderLedger.SaveToSheet` | CakeApp/app.py:39-73 | The written sheet reads back as the saved table, and the call returns the new order's id. |
| `OrderLedger.SaveAfterFailedReadOverwrites` | CakeApp/app.py:41-72 | When the read fails, the save writes a sheet holding only the new order, numbered 1. |
| `OrderLedger.SheetSavesMatchTableSaves` | CakeApp/app.py:71-72 | Saves through the sheet, one after another, leave the same table and return the same ids as the same saves on the table. |
| `OrderLedger.SaveContinuesNumbering` | CakeApp/app.py:43-71 | On a table numbered 1..n, a save returns n + 1 and the result is numbered 1..n + 1. |
| `OrderLedger.SavesContinueNumbering` | CakeApp/app.py:43-71 | k saves on a table numbered 1..n return n + 1, ..., n + k and leave a table numbered 1..n + k. |
| `OrderLedger.SequentialSavesNumberFromOne` | CakeApp/app.py:39-73 | N saves starting from a sheet without orders return the ids 1..N in order. The sheet then holds N orders numbered 1..N. |
| `OrderLedger.PatchMatching` | CakeApp/app.py:79-84 | Rows whose id matches get the new status, payment and amount; the others are kept as they are. |
| `OrderLedger.UpdateStatus` | CakeApp/app.py:75-85 | Nothing is written exactly when no row has the id. Otherwise the same rows are written, and matching rows differ only in status, payment and, when a new amount is given, amount. |
| `OrderLedger.UpdateStatusIdempotent` | CakeApp/app.py:78-85 | Repeating an update leaves the ledger as one update left it. |
| `OrderLedger.UpdateStatusKeepsIds` | CakeApp/app.py:81-84 | An update keeps every id in place, so unique ids stay unique. |
| `OrderLedger.UpdateStatusWithDefaults` | CakeApp/app.py:75 | Called with its defaults, an update sets the payment to "Unpaid" and keeps the amount. |
| `OrderLedger.UpdateStatusInSheet` | CakeApp/app.py:75-85 | A sheet is written exactly when the table read has a row with the id, so a failed read writes nothing. A written sheet reads back as the updated table. |
| `OrderLookup.NormalizePhone` | CakeApp/app.py:91-94 | The key is the trimmed phone with a final ".0" removed when present, and the trimmed phone otherwise. |
| `OrderLookup.DigitPhoneIsItsOwnKey` | CakeApp/app.py:91-94 | A digit-only phone, as `save_order` stores it, is its own key. |
| `OrderLookup.PaddedDigitPhoneKey` | CakeApp/app.py:91-94 | Whitespace around a digit phone does not change its key. |
| `OrderLookup.FloatArtifactDroppedFromKey` | CakeApp/app.py:93 | Digits followed by ".0", the trace of a phone cell read as a float, have the digits as their key, with or without surrounding whitespace. |
| `OrderLookup.PlainPhoneIsItsOwnKey` | CakeApp/app.py:91-94 | A phone with no whitespace at either end and no dot before its last character is its own key. |
| `OrderLookup.DashedQueryMissesStoredPhone` | CakeApp/app.py:91-97 | For any two non-empty groups of digits, the query with a dash between them is its own key. That key differs from the key of the same digits stored without the dash. |
| `OrderLookup.InsertByIdDesc` | CakeApp/app.py:98 | Insertion into a table sorted by descending id keeps it sorted and adds exactly the one row. |
| `OrderLookup.SortByIdDesc` | CakeApp/app.py:98 | Sorting yields a permutation of the table with ids non-increasing. |
| `OrderLookup.GetOrdersByPhone` | CakeApp/app.py:87-98 | The result holds exactly the rows whose key equals the query's key, each as often as in the table, with ids non-increasing. |
| `OrderLookup.LookupDependsOnlyOnKey` | CakeApp/app.py:96-98 | Queries with the same key give the same result. |
| `OrderLookup.LargestMatchIsFoundFirst` | CakeApp/app.py:98 | A matching row whose id exceeds every other row's id heads the result. |
| `OrderLookup.NewOrderIsTrackedFirst` | CakeApp/app.py:39-98 | Right after a save, looking up the stored phone's key lists the new order first. |
| `OrderLookup.TrackingShowsUpdate` | CakeApp/app.py:78-98 | After an update, every looked-up order with that id shows the new status and payment. |

## Left out

- The Streamlit views, CSS, navigation and the admin password check: user interface only.
- The cake form's own check that name and phone are present before `save_order` is called: view logic.
- Email sending (`send_email` in both apps): network I/O.
- Reading PDFs with PyPDF2: a foreign library. Each upload carries the reader's outcome as data.
- The manual page-count override of the print form (app.py:327-328): a user input that replaces the detected count. `PrintQuote.LiveQuote` covers only the detected count.
- The spreadsheet connection: reads are `SheetRead` values and writes are returned `Sheet` values.
- `datetime.now()`: the date is a parameter.
- Writing the reference photo to disk and the UPI payment link: I/O and presentation.
- The admin dashboard's bulk save, which calls `update_status` once per edited row: each call is `OrderLedger.UpdateStatus`.
- The race between reading the maximum id and writing the new row when two customers save at once: only sequential calls are modelled.
- pandas `fillna` and column dtypes: cells other than the id are kept as read, and the amount is a real number.
- The helper column `phone_clean` that the lookup adds to its result: the result keeps only the ledger's columns.
- Floating point: cake weights and amounts are exact reals. Sheet numbers are exact too, so a float's rounding is not modelled.
- Characters beyond ASCII for `isalnum` and `\D`, and beyond Latin-1 for `str.strip`: `str.strip` whitespace is classified over code points below 256, but `isalnum` and `\D` over ASCII only. Python's `isalnum` is true of letters such as 'é', which `Text.KeepAlnum` drops from a renamed file's name.
- The text of error messages and the formatting of the detail lines beyond their structure.
- `os.path.splitext` on Windows paths: only POSIX separators are modelled.
- OrderLedger.GetAllOrders: only the nine expected columns are kept, in a fixed order. The source returns, and `save_order` and `update_status` write back, every column the sheet has, in the sheet's order. Extra columns and the column order are lost in this model.
- OrderLedger.GetAllOrders: the int64 cast of `astype(int)` is not modelled. `to_numeric` reads an id cell such as "inf" or "1e400" as infinity, which `astype(int)` cannot convert. The source then raises inside the `try` and returns the empty table, so the next `save_order` overwrites the whole sheet with one order numbered 1. This model gives such an id 0 and keeps the other orders. Ids outside the int64 range, which the cast would reject or wrap, are kept exactly by `OrderLedger.TruncateToInt`.
- OrderLedger.ReadBackWritten: the store is assumed to return exactly the cells written. Converting digit-only text, such as a phone, to a number on the way back is not modelled. The ".0" that `normalize_phone` drops hints that the real store does this.
- OrderLedger.UpdateStatus: the id and the new amount arrive already converted, as an integer and an optional real. `int(order_id)` truncating a float id or raising on NaN or None is not modelled. Neither is `float(new_amount)` raising on a blank amount, which stops the admin dashboard's bulk save partway, after the earlier rows were written.
- Text.ParseInt: reads only an optional minus sign followed by digits. pandas' `to_numeric` also reads a leading '+', surrounding whitespace, a decimal point and an exponent.
- OrderLedger.CoerceId: text ids with a decimal point, an exponent, surrounding whitespace or a leading '+' become 0 here, while pandas would read them as numbers.
- OrderLookup.GetOrdersByPhone: pandas does not promise an order among rows with equal ids. The contract fixes the contents and the descending ids, not the order of ties.
