# price-monitor, modelled in Dafny

A model of the two AWS Lambda handlers of price-monitor and of the email
template they share:

- **The price-check pass** (`src/lambdas/price-check.ts`). On a schedule it
  scans the DynamoDB price table and stops at once when the table is empty.
  Otherwise it fetches every row's page, extracts the price text with the
  row's CSS selector, and builds the diff: each row whose extracted price is
  not string-equal to its stored price, copied with only `price` replaced.
  Then it puts every diff row back as a full row. Any failure is rethrown
  as `Error("Uuuups!")`.
- **The change notifier** (`src/lambdas/price-notification.ts`). It is
  invoked by the table's change stream and reads only the first record of
  the batch. It ignores anything but `MODIFY`. For a `MODIFY` it sends one
  SES email: from and to the new row's `email`, with subject
  `💰 Price alert - <item>` and an HTML body from the template. A failed
  send is rethrown as `Error("Uuuups!")`.
- **The alert template** (`src/utils/getEmailTemplate.ts`). One template
  literal: fixed HTML with `url`, `item`, `oldPrice` and `newPrice`
  inserted verbatim.

Files:

- `common.dfy`: `Common` (`Option`, how an invocation ends) and `Rows`
  (`PriceRow`: `id`, `url`, `selector`, `item`, `price`, `email`).
- `email_template.dfy`: `EmailTemplate`. The template is a `Layout` (five
  fixed chunks around four slots) filled by `Fill`. Every fact is proved
  once for any layout and then read off for the alert's layout.
- `price_check.dfy`: `PriceCheck`. It has the pure decision (`FetchAll`,
  `ExtractPrices`, `Diff`, `PlannedWrites`), the table as a map from
  partition key to row (`ApplyPuts`), the `ItemStore` class for the
  DynamoDB client (`Scan`, `Put`), the `WriteBack` loop, the `Handler`
  method, and the lemmas on diffing, write-back and idempotence.
- `price_notification.dfy`: `PriceNotification`. It has the decision
  (`Decide`), the request (`Alert`), the handler (`Handle`) and its
  lemmas.

The page fetcher (`node-fetch`) and the price extractor (`cheerio`) are
parameters of the pass: a `Fetcher` maps a URL to a body or a failure, and
an `Extractor` maps a body and a selector to the matched text or a failure.
The `reduce` at `price-check.ts:54-63` does two things: it extracts row i's
price from body i with row i's selector, and it compares that price with
the stored one. The model splits these into `ExtractPrices` and `Diff`.
Extraction has no effect except that it may throw, so the split changes
nothing observable. Whether a scan or a put fails is up to the table, so
`ItemStore.Scan` and `ItemStore.Put` choose that nondeterministically.
Whether SES accepts the send is a parameter of `Handle`.

## Model

| member | source | states |
|---|---|---|
| `PriceCheck.FetchAll` | src/lambdas/price-check.ts:44-48 | The bodies exist iff every row's fetch succeeds. Body i is then what fetching row i's `url` returned, in row order. |
| `PriceCheck.ExtractPrices` | src/lambdas/price-check.ts:55-56 | The prices exist iff every extraction succeeds. Price i is then what row i's `selector` extracts from body i. |
| `PriceCheck.Diff` | src/lambdas/price-check.ts:54-63 | The diff has at most one entry per scanned row. |
| `PriceCheck.ChangedIndices` | src/lambdas/price-check.ts:58-62 | The changed positions are strictly increasing and in range. Position i is among them iff price i is not string-equal to row i's stored price. |
| `PriceCheck.DiffSelectsChanged` | src/lambdas/price-check.ts:54-63 | Entry k of the diff is the row at the k-th changed position with only `price` replaced by its extracted price. So the diff is an order-preserving selection of the changed rows, each once. |
| `PriceCheck.DiffEmptyIffUnchanged` | src/lambdas/price-check.ts:58-60 | The diff is empty iff every extracted price equals its row's stored price. |
| `PriceCheck.TwoRowsOneChanged` | src/lambdas/price-check.ts:54-63 | With one unchanged row and one changed row, the diff is exactly the changed row with its new price. |
| `PriceCheck.PlannedWrites` | src/lambdas/price-check.ts:35-63 | The planned writes never outnumber the scanned rows. |
| `PriceCheck.PricePutsChangeOnlyPrices` | src/lambdas/price-check.ts:70-81 | Suppose each put keeps every field of its table row except `price`. Then the puts keep the table's keys and change only prices. A row that no put names stays as it was. |
| `PriceCheck.DiffEntriesArePricePuts` | src/lambdas/price-check.ts:62 | Every diff entry is its table row with only `price` replaced. |
| `PriceCheck.WriteBackPrefix` | src/lambdas/price-check.ts:54-81 | After the diff of the first m listed rows is put, each of those rows holds exactly its extracted price; rows not among them are untouched and the keys stay. |
| `PriceCheck.WriteBackSetsExtractedPrices` | src/lambdas/price-check.ts:54-81 | After the whole diff is put, the row listed at i holds exactly price i and its other fields unchanged, whether it was in the diff or not. Rows not listed are untouched. |
| `PriceCheck.CurrentTableNeedsNoWrites` | src/lambdas/price-check.ts:54-67 | If every stored price is what its page shows, a pass over any listing of the table plans no writes. |
| `PriceCheck.PassLeavesTableCurrent` | src/lambdas/price-check.ts:44-81 | After a pass whose fetches, extractions and puts all succeed, the keys are unchanged and every row's price is what its page shows. |
| `PriceCheck.SecondPassWritesNothing` | src/lambdas/price-check.ts:58-81 | Idempotence: a second pass against the same pages, over any listing of the table the first pass left, plans no writes. |
| `PriceCheck.PassEffect` | src/lambdas/price-check.ts:67-81 | Whatever subset of the puts the table acknowledges, only prices change. If all are acknowledged, every row is current. |
| `PriceCheck.ItemStore.Scan` | src/lambdas/price-check.ts:26-32 | A successful scan lists every row of the table once, each as stored. |
| `PriceCheck.ItemStore.Put` | src/lambdas/price-check.ts:71-79 | An acknowledged put replaces the whole row under the row's `id`. A failed put changes nothing. |
| `PriceCheck.WriteBack` | src/lambdas/price-check.ts:70-81 | One put per diff entry, in diff order, with one answer each. The table ends as the old table with the acknowledged puts applied. |
| `PriceCheck.Handler` | src/lambdas/price-check.ts:19-90 | An empty scan returns with no fetch and no put. Otherwise every row's URL is fetched. The puts issued are exactly the planned writes, and none are issued when a fetch or extraction fails. Only prices change, and the keys stay. The pass returns normally iff the scan, every fetch, every extraction and every put succeed; every other outcome is the rethrown "Uuuups!". On success every row is current. |
| `PriceNotification.Handle` | src/lambdas/price-notification.ts:14-69 | At most one send. The outcome is a normal return, the rethrown "Uuuups!", or an error thrown before the `try` (not "Uuuups!"). "Uuuups!" is thrown only when the one send was made and SES rejected it. For a well-formed `MODIFY`, the one send is the alert, and the invocation returns normally if SES accepts it and throws "Uuuups!" if SES rejects it. |
| `PriceNotification.NonModifySendsNothing` | src/lambdas/price-notification.ts:24-27 | A first record that is not `MODIFY` gives no send and a normal return. |
| `PriceNotification.SendIffModify` | src/lambdas/price-notification.ts:17-41 | Exactly one send happens iff the first record is a `MODIFY` carrying both images. |
| `PriceNotification.OnlyFirstRecordCounts` | src/lambdas/price-notification.ts:17 | Records after the first have no effect on the invocation. |
| `PriceNotification.AlertAddressing` | src/lambdas/price-notification.ts:32-58 | For a `MODIFY`, `Source` and the sole `ToAddresses` entry are the new image's `email`. The subject is `💰 Price alert - ` followed by the new `item`. The body is the template of the new `item`, `url` and `price` and the old `price`. The invocation returns normally if the send succeeds and throws "Uuuups!" if it fails. |
| `PriceNotification.AlertShowsPriceChange` | src/lambdas/price-notification.ts:47-52 | The alert body shows the old price, then the "New price:" label, then the new price, and links the new `url` under the new `item`. |
| `PriceNotification.EqualPricesStillSend` | src/lambdas/price-notification.ts:24-36 | A `MODIFY` whose old and new prices are equal still sends the alert: the handler does not compare prices. |
| `PriceNotification.WidgetExample` | src/lambdas/price-notification.ts:36-61 | Widget, $10.00 to $12.00, owner a@example.com: one alert to that owner, with subject ending "Widget" and body showing $10.00 before $12.00. |
| `EmailTemplate.Fill` | src/utils/getEmailTemplate.ts:11-33 | A filled layout is exactly as long as its fixed text plus the four values, so nothing is escaped or dropped. |
| `EmailTemplate.GetEmailTemplate` | src/utils/getEmailTemplate.ts:1-33 | The output's length is the template's fixed length plus the lengths of the four arguments. Its only inputs are the four arguments. |
| `EmailTemplate.FillUrlSlot` | src/utils/getEmailTemplate.ts:30 | In a filled layout, the url sits right after the first fixed chunk. |
| `EmailTemplate.FillItemSlot` | src/utils/getEmailTemplate.ts:30 | The item sits right after the url and the second fixed chunk. |
| `EmailTemplate.FillOldPriceSlot` | src/utils/getEmailTemplate.ts:31 | The old price sits right after the item and the third fixed chunk. |
| `EmailTemplate.FillNewPriceSlot` | src/utils/getEmailTemplate.ts:31 | The new price sits right after the old price and the fourth fixed chunk, and only the last fixed chunk follows it. |
| `EmailTemplate.FillInBeforeUrl` | src/utils/getEmailTemplate.ts:11-30 | Any text inside the first fixed chunk appears in the output at its offset within that chunk. |
| `EmailTemplate.FillInUrlToItem` | src/utils/getEmailTemplate.ts:30 | Any text inside the chunk between url and item appears right after the url, at its offset within that chunk. |
| `EmailTemplate.FillInItemToOldPrice` | src/utils/getEmailTemplate.ts:30-31 | Any text inside the chunk between item and old price appears right after the item, at its offset within that chunk. |
| `EmailTemplate.FillInOldToNewPrice` | src/utils/getEmailTemplate.ts:31 | Any text inside the chunk between the prices appears right after the old price, at its offset within that chunk. |
| `EmailTemplate.FillInAfterNewPrice` | src/utils/getEmailTemplate.ts:31-33 | Any text inside the last chunk appears right after the new price, at its offset within that chunk. |
| `EmailTemplate.FillReadBack` | src/utils/getEmailTemplate.ts:11-33 | Reading the slots of a filled layout gives back the four values. |
| `EmailTemplate.FillContiguousLink` | src/utils/getEmailTemplate.ts:30 | The text around the url and item slots, with both values, appears as one contiguous run. |
| `EmailTemplate.TemplateOpensWithDoctype` | src/utils/getEmailTemplate.ts:11 | The alert begins with `<!doctype html>`. |
| `EmailTemplate.TemplateClosesWithHtmlEnd` | src/utils/getEmailTemplate.ts:32-33 | The alert ends with `</html>` and a newline. |
| `EmailTemplate.TemplateReadBack` | src/utils/getEmailTemplate.ts:11-33 | The four arguments are inserted verbatim, each once, in the order url, item, old price, new price. Reading the slots back returns them. |
| `EmailTemplate.TemplateInjective` | src/utils/getEmailTemplate.ts:11-33 | Two alerts are equal only when they were filled with the same arguments, given equal lengths for the first three. |
| `EmailTemplate.TemplateLinkLine` | src/utils/getEmailTemplate.ts:30 | "Price just changed for " is followed by `<a href="`, the url, `">`, the item and `</a>!`. |
| `EmailTemplate.TemplatePricesLabelled` | src/utils/getEmailTemplate.ts:31 | Both prices appear verbatim, in this order: "Old price:", the old price, "New price:", the new price. |
| `EmailTemplate.TemplateGreetingAndSignOff` | src/utils/getEmailTemplate.ts:30-32 | The greeting "Hi 👋" comes before the link line. The sign-off "Have a good day 🐘💨" comes after the new price. |

## Left out

- The styling markup of the template is not spelled out: the `html` and `head` elements, the CSS, the Outlook conditional comments, the layout tables and the `div` attributes. It is kept as fixed strings whose contents the model leaves open. The visible text and the link tags around the url and item slots are spelled exactly: the doctype, greeting, link, labels, sign-off and closing tag. The `div` markup around the two price slots is part of the open strings. No property depends on the rest.
- Concurrency of `Promise.all` is not modelled. Fetches and puts happen in row order and diff order. As in the source, every request is still issued, and the pass fails if any one fails.
- Scan pagination is not modelled. A DynamoDB scan returns at most 1 MB per call, and the handler does not follow `LastEvaluatedKey`. The model's scan returns the whole table.
- DynamoDB `marshall`/`unmarshall` is not modelled: rows and stream images are `PriceRow` values. A stored row lacking one of the six fields is out of scope.
- `node-fetch`'s HTTP semantics are not modelled, nor what `cheerio` extracts. Both are the `Fetcher` and `Extractor` parameters. The empty string for a selector that matches nothing is an ordinary extracted value.
- X-Ray segments, `console.log`/`console.error` and the environment variables (`AWS_REGION`, `TABLE_NAME`) are not modelled. They have no effect on results.
- The notifier's send succeeds or fails as a given parameter. SES itself is not modelled.
- `PriceRow`'s fields are those the handlers read, plus the table's partition key `id` (lib/price-monitor-stack.ts:21-24).
- `lib/price-monitor-stack.ts` (CDK infrastructure: table, stream with batch size 1, schedule, alarms, IAM) is not modelled. It has no behaviour of its own.
