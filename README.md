# FIPE vehicle-price pipeline, modelled in Dafny

The pipeline loads the FIPE table of Brazilian vehicle prices into PostgreSQL.
It runs as a chain of queue-driven functions:

1. The **manufacturer lister** (`fipe_manufacturer_loader.py`) asks the catalog
   for the brands of each vehicle type, in the order 3, 1, 2. It emits one
   message per brand, either to the output queue or, when run locally, into a
   list. In a development run it stops after the first three brands of each type.
2. The **model expander** (`fipe_model_loader.py`) reads brand messages. For each
   one it asks for the brand's models, retrying once after an HTTP 429, and emits
   one message per model. Messages go out in batches of ten, and a final batch
   carries the rest.
3. The **price collector** (`fipe_price_loader.py`) reads model messages. It asks
   for the model's years and fuel types and then for the price of every
   (year, fuel) pair. The rows are buffered and sent on to the ingestor's queue.
   The code_lambdas copy sends the buffer after every tenth record and once more
   at the end; the src copy sends it once, after the last record.
4. The **ingestor** (`fipe_soma_ingestor.py`) reads price messages and validates
   them. It finds or creates the manufacturer row and the model row, then updates
   or inserts the price row.
   - The code_lambdas copy opens a connection per record, with up to four
     attempts.
   - The src copy shares one connection for the whole invocation and fills in
     defaults for missing keys.
5. The **catalog client** (`fipe_api_service.py`) is used by all of them:
   - `mes_ano_formatado` and the reference-table choice;
   - the `get_years` reply parser;
   - `send_sqs_messages`, which numbers the messages, sends them in chunks of
     ten, and collects the ids the queue reports as failed.

The model works on values: JSON scalars and objects, queue records, and the
three database tables. Every catalog, queue or database call becomes a
parameter of the model:
- the catalog's replies are functions from the call number to the reply;
- the success of a queue send, or of a connection attempt, is a function of the
  call number;
- the order in which Python enumerates a set is also a parameter.

The loops of each handler are methods. Each is proved equal to a recursive
specification function of the same loop. The pipeline's promises are lemmas
about those functions.

Files:
- `wrappers.dfy`: Option, the Python exceptions that matter, Result.
- `queue.dfy`: a queue record, the handlers' response, and the list of every record's id.
- `text.dfy`: the string methods used (`strip`, `lower`, `split`, `replace`,
  `isdigit`).
- `json.dfy`: JSON scalars, `dict.get`, truthiness, `str()` and `int()`.
- `currency.dfy`: the price normalisation and `float()`.
- `store.dfy`: the three tables, get-or-create, update and insert; a `Database`
  class holds them.
- `api_service.dfy`: the catalog client.
- `manufacturer_lister.dfy`, `model_expander.dfy`, `price_collector.dfy` and
  `price_collector_single_flush.dfy`: the first three stages.
- `ingestor.dfy` and `ingestor_shared_connection.dfy`: the two ingestors.

## Model

| member | source | states |
|---|---|---|
| `ApiService.MesAnoFormatado` | code_lambdas/src/fipe_api/fipe_api_service.py:8-30 | ValueError exactly when the month is outside 1..12 |
| `ApiService.MesAnoFormatadoParts` | code_lambdas/src/fipe_api/fipe_api_service.py:10-30 | a valid label splits at its one `/` into the Portuguese month name and the printed year |
| `ApiService.MesAnoFormatadoIsLower` | code_lambdas/src/fipe_api/fipe_api_service.py:10-30 | a valid label has no capitals, so `lower()` leaves it unchanged |
| `ApiService.MesAnoFormatadoInjective` | code_lambdas/src/fipe_api/fipe_api_service.py:8-30 | two valid periods with the same label are the same period |
| `ApiService.MonthNamesDistinct` | code_lambdas/src/fipe_api/fipe_api_service.py:10-23 | no two months share a name |
| `ApiService.FirstMatching` | code_lambdas/src/fipe_api/fipe_api_service.py:64-66 | the search finds nothing exactly when every table's stripped, lower-cased `Mes` differs from the label |
| `ApiService.FirstMatchingIsFirst` | code_lambdas/src/fipe_api/fipe_api_service.py:64-66 | a table found is a match and every earlier table is not |
| `ApiService.FirstMatchFound` | code_lambdas/src/fipe_api/fipe_api_service.py:64-66 | when table `k` matches and every earlier one does not, the loop returns table `k` |
| `ApiService.FirstMatchingRaises` | code_lambdas/src/fipe_api/fipe_api_service.py:64-66 | the search raises only KeyError, for a table without `Mes` reached before any match |
| `ApiService.SelectReferenceTable` | code_lambdas/src/fipe_api/fipe_api_service.py:51-73 | an empty reply gives `{}`; period (0, 0) gives the first table; another month outside 1..12 raises ValueError; with a valid month the result is None exactly when no table's stripped, lower-cased `Mes` equals the label |
| `ApiService.NewClient` | code_lambdas/src/fipe_api/fipe_api_service.py:37-49 | ValueError without a base URL; a failed request or selection raises the same exception, and a selection that fell through to None raises AttributeError; otherwise the client is built exactly when the selected table's `Mes` (default "Desconhecido") is text, and then holds that table's `Codigo` (null when absent) and its stripped `Mes` |
| `ApiService.NewClientOfMatch` | code_lambdas/src/fipe_api/fipe_api_service.py:37-67 | built from the first table matching the period's label, a client exists exactly when that table's `Mes` is text, and then holds its `Codigo` and a month that lowers to the label |
| `ApiService.NewClientNamesPeriod` | code_lambdas/src/fipe_api/fipe_api_service.py:37-67 | for a calendar period and a non-empty reference list, a client is built exactly when the first table whose `Mes` matches the period's label has a text `Mes`; its code is that table's `Codigo`, and its month, lowered, is the label |
| `ApiService.ParseYears` | code_lambdas/src/fipe_api/fipe_api_service.py:131-165 | the loop returns the kept years in reply order and the set of fuel codes |
| `ApiService.KeptYearsMembers` | code_lambdas/src/fipe_api/fipe_api_service.py:141-161 | an entry is kept exactly when some item's first label token is all digits |
| `ApiService.KeptYearsWellFormed` | code_lambdas/src/fipe_api/fipe_api_service.py:157-159 | at most one entry per item; each kept year is all digits and is its label's first token |
| `ApiService.FuelCodesMembers` | code_lambdas/src/fipe_api/fipe_api_service.py:143-155 | a fuel code is collected exactly when some item, kept year or not, yields it; no code is empty |
| `ApiService.FuelCodeHasNoDash` | code_lambdas/src/fipe_api/fipe_api_service.py:144-152 | no collected fuel code holds a `-` |
| `ApiService.FuelCodeOfHyphenated` | code_lambdas/src/fipe_api/fipe_api_service.py:144-145 | a hyphenated `Value` yields what follows its last `-` |
| `ApiService.ParseYearsHyphenated` | code_lambdas/src/fipe_api/fipe_api_service.py:136-159 | an item "<year> <word>" / "<year>-<code>" gives the year entry and the code |
| `ApiService.ParseYearsDroppedYear` | code_lambdas/src/fipe_api/fipe_api_service.py:136-161 | an item whose year is not a number is dropped from the years, but its fuel word still adds a code |
| `ApiService.ChunksFlatten` | code_lambdas/src/fipe_api/fipe_api_service.py:201-204 | the chunks concatenate back to the input |
| `ApiService.ChunksCount` | code_lambdas/src/fipe_api/fipe_api_service.py:201-204 | the number of chunks is the least that covers the input; no chunks exactly for no data |
| `ApiService.ChunksSizes` | code_lambdas/src/fipe_api/fipe_api_service.py:201-204 | every chunk holds 1..size elements, and every chunk but the last holds exactly size |
| `ApiService.ChunksOfTwentyFive` | code_lambdas/src/fipe_api/fipe_api_service.py:201-218 | 25 entries go out as chunks of 10, 10 and 5, in order |
| `ApiService.EntriesIdentified` | code_lambdas/src/fipe_api/fipe_api_service.py:209-215 | entry `i` carries message `i`, and its id is `str(i)`: the id reads back as `i` and no two ids are equal |
| `ApiService.SendChunks` | code_lambdas/src/fipe_api/fipe_api_service.py:220-237 | makes at most one call per chunk, and a call for every chunk unless one raises |
| `ApiService.SendChunksAllAccepted` | code_lambdas/src/fipe_api/fipe_api_service.py:220-237 | when no batch call raises, the send does not raise and calls once per chunk |
| `ApiService.SendSqsMessages` | code_lambdas/src/fipe_api/fipe_api_service.py:206-241 | the loop sends a prefix of the chunks, one call each, and all of them unless a call raises; it returns the reported failures |
| `ApiService.SendFailuresAreIndices` | code_lambdas/src/fipe_api/fipe_api_service.py:206-241 | when the queue only reports ids it was sent, every returned failure is the position of one of the messages |
| `ApiService.SendChunksFailureSource` | code_lambdas/src/fipe_api/fipe_api_service.py:225-232 | every reported failure names an entry of some chunk sent |
| `Text.LowerIdempotent` | code_lambdas/src/fipe_api/fipe_api_service.py:65 | `lower()` leaves a string without capitals unchanged, and its result has no capitals left: lowering twice is lowering once |
| `Text.TrimStartSpec` | code_lambdas/src/fipe_api/fipe_api_service.py:47-49 | `lstrip` removes exactly the leading whitespace |
| `Text.TrimEndSpec` | code_lambdas/src/fipe_api/fipe_api_service.py:47-49 | `rstrip` removes exactly the trailing whitespace |
| `Text.StripIdempotent` | code_lambdas/src/fipe_api/fipe_api_service.py:65 | stripping twice is stripping once; text without surrounding whitespace is unchanged |
| `Text.Split` | code_lambdas/src/fipe_api/fipe_api_service.py:141-149 | a split always has at least one piece |
| `Text.SplitJoin` | code_lambdas/src/fipe_api/fipe_api_service.py:141-149 | joining the pieces with the separator gives back the input |
| `Text.SplitPiecesFree` | code_lambdas/src/fipe_api/fipe_api_service.py:141-149 | no piece holds the separator |
| `Text.SplitWithoutSeparator` | code_lambdas/src/fipe_api/fipe_api_service.py:141-149 | text without the separator is one piece |
| `Text.SplitAtFirst` | code_lambdas/src/fipe_api/fipe_api_service.py:141-149 | the first separator ends the first piece |
| `Text.SplitManyIff` | code_lambdas/src/fipe_api/fipe_api_service.py:149 | there is more than one piece exactly when the separator occurs |
| `Text.LastPieceIsFreeSuffix` | code_lambdas/src/fipe_api/fipe_api_service.py:145 | `split(sep)[-1]` is a suffix of the input without the separator |
| `Text.ReplaceCharConcat` | code_lambdas/src/fipe_api/fipe_soma_ingestor.py:167 | replacing a one-character pattern works piece by piece |
| `Text.ReplaceAbsent` | code_lambdas/src/fipe_api/fipe_soma_ingestor.py:167 | text without the pattern's first character is unchanged |
| `Json.NatToStringRoundTrip` | code_lambdas/src/fipe_api/fipe_api_service.py:211 | `str(n)` is all digits and reads back as `n` |
| `Json.IntToStringSign` | code_lambdas/src/fipe_api/fipe_api_service.py:211 | `str(i)` is non-empty and starts with `-` exactly when `i` is negative |
| `Json.IntToStringInjective` | code_lambdas/src/fipe_api/fipe_api_service.py:211 | distinct integers print differently |
| `Json.PyStrEmptyIff` | code_lambdas/src/fipe_api/fipe_manufacturer_loader.py:54-57 | `str(v)` is empty only for the empty string; None, 0 and False print as non-empty text |
| `Json.PyIntOfPyStr` | code_lambdas/src/fipe_api/fipe_api_service.py:211 | `int(str(i)) == i` |
| `Currency.ParseFloat` | code_lambdas/src/fipe_api/fipe_soma_ingestor.py:168 | `float("")` raises ValueError |
| `Currency.FipeValue` | code_lambdas/src/fipe_api/fipe_soma_ingestor.py:167-168 | a value that normalises to empty text is stored as 0 |
| `Currency.NormalizeWord` | code_lambdas/src/fipe_api/fipe_soma_ingestor.py:167 | a plain word survives the three replacements unchanged |
| `Currency.ParseFloatRejectsWord` | code_lambdas/src/fipe_api/fipe_soma_ingestor.py:168 | `float` rejects a plain word |
| `Currency.FipeValueOfWord` | code_lambdas/src/fipe_api/fipe_soma_ingestor.py:167-168 | a value printing as a plain word (None, False, "Unknown") raises instead of giving a price |
| `Currency.GroupedUndotted` | code_lambdas/src/fipe_api/fipe_soma_ingestor.py:167 | removing the dots of a thousands-grouped number leaves digits that read back as the number |
| `Currency.NormalizeBrl` | code_lambdas/src/fipe_api/fipe_soma_ingestor.py:167 | a price written the catalog's way ("R$ ", thousands grouped with dots, a comma and two-digit cents) normalises to the undotted digits, a point and the cents |
| `Currency.CurrencySignRemoved` | code_lambdas/src/fipe_api/fipe_soma_ingestor.py:167 | removing "R$ " from such a price leaves the digits, dots, comma and cents untouched |
| `Currency.DotsRemoved` | code_lambdas/src/fipe_api/fipe_soma_ingestor.py:167 | removing the dots touches only the part before the comma |
| `Currency.CommaReplaced` | code_lambdas/src/fipe_api/fipe_soma_ingestor.py:167 | the decimal comma becomes a point |
| `Currency.ParseFloatDecimal` | code_lambdas/src/fipe_api/fipe_soma_ingestor.py:168 | "<digits>.<digits>" reads as the decimal number it writes |
| `Currency.ParseFloatTwoParts` | code_lambdas/src/fipe_api/fipe_soma_ingestor.py:168 | unsigned text splitting at its one point into two digit runs reads as their decimal number |
| `Currency.FipeValueOfBrl` | code_lambdas/src/fipe_api/fipe_soma_ingestor.py:167-168 | every price written the catalog's way is stored as its exact value: `n` cents as `n / 100` reais, so "R$ 10.234,56" as 10234.56 |
| `Store.FindManufacturerFirst` | code_lambdas/src/fipe_api/fipe_soma_ingestor.py:75-85 | the lookup finds nothing exactly when no row matches name, code and vehicle type; otherwise it finds the first match |
| `Store.FindModelFirst` | code_lambdas/src/fipe_api/fipe_soma_ingestor.py:123-133 | the same for models by name, code and manufacturer |
| `Store.FindValueFirst` | code_lambdas/src/fipe_api/fipe_soma_ingestor.py:171-182 | the same for price rows by model, fipe code, year and reference month |
| `Store.ManufacturerFoundOrCreated` | code_lambdas/src/fipe_api/fipe_soma_ingestor.py:58-104 | the returned id names a row with exactly those values; at most one row is added and no other table changes |
| `Store.ManufacturerGetOrCreateIdempotent` | code_lambdas/src/fipe_api/fipe_soma_ingestor.py:58-104 | asking again returns the same id and changes nothing |
| `Store.ModelFoundOrCreated` | code_lambdas/src/fipe_api/fipe_soma_ingestor.py:106-152 | the returned id names a model row with that name, code and manufacturer; at most one row is added |
| `Store.ModelGetOrCreateIdempotent` | code_lambdas/src/fipe_api/fipe_soma_ingestor.py:106-152 | asking again returns the same id and changes nothing |
| `Store.FindValueUnique` | code_lambdas/src/fipe_api/fipe_soma_ingestor.py:171-191 | in consistent tables the price row found is the only one with its key |
| `Store.UpdateChangesOnlyPrice` | code_lambdas/src/fipe_api/fipe_soma_ingestor.py:184-191 | the update changes the found row's price and write count and nothing else |
| `Store.InsertKeepsConsistent` | code_lambdas/src/fipe_api/fipe_soma_ingestor.py:192-216 | inserting an absent key adds one active row with that price under a fresh id; the tables stay consistent |
| `Store.Database.GetOrCreateManufacturer` | code_lambdas/src/fipe_api/fipe_soma_ingestor.py:58-104 | the stored tables and the id are those of the get-or-create specification |
| `Store.Database.GetOrCreateModel` | code_lambdas/src/fipe_api/fipe_soma_ingestor.py:106-152 | the stored tables and the id are those of the get-or-create specification |
| `Store.Database.UpdateValue` | code_lambdas/src/fipe_api/fipe_soma_ingestor.py:187-191 | the stored tables are those after the update |
| `Store.Database.InsertValue` | code_lambdas/src/fipe_api/fipe_soma_ingestor.py:195-216 | the stored tables are those after the insert |
| `ManufacturerLister.MessageFor` | code_lambdas/src/fipe_api/fipe_manufacturer_loader.py:50-69 | a brand gets a message exactly when it is within the cap and its printed code and name are non-empty; the message carries the client's table code |
| `ManufacturerLister.ProcessVehicleTypes` | code_lambdas/src/fipe_api/fipe_manufacturer_loader.py:7-99 | a failed client construction propagates; without a queue outside local mode it returns 500 and does nothing; otherwise it runs the type loop and returns 200 with the local count |
| `ManufacturerLister.ProcessBrands` | code_lambdas/src/fipe_api/fipe_manufacturer_loader.py:50-80 | the brand loop equals its specification, stopping at a send that raises |
| `ManufacturerLister.SendUntilFailurePrefix` | code_lambdas/src/fipe_api/fipe_manufacturer_loader.py:75-83 | what is sent is a prefix of the messages, and all of them when no send raises |
| `ManufacturerLister.EmittedCapped` | code_lambdas/src/fipe_api/fipe_manufacturer_loader.py:50-53 | with the cap on, the brands from position `i` on yield at most `3 - i` messages, and none from the fourth brand on |
| `ManufacturerLister.EmittedMembers` | code_lambdas/src/fipe_api/fipe_manufacturer_loader.py:50-69 | a message is emitted exactly when some brand calls for it |
| `ManufacturerLister.LocalBrandsAppendEmitted` | code_lambdas/src/fipe_api/fipe_manufacturer_loader.py:71-80 | in local mode the brand loop appends exactly the emitted messages, each followed by a one-second pause |
| `ManufacturerLister.QueueBrandsSendEmitted` | code_lambdas/src/fipe_api/fipe_manufacturer_loader.py:75-83 | outside local mode the brand loop sends the emitted messages in order until a send raises, and keeps nothing locally |
| `ManufacturerLister.TypesFromUnrolled` | code_lambdas/src/fipe_api/fipe_manufacturer_loader.py:33-39 | the type loop visits the types 3, 1, 2 in that order |
| `ManufacturerLister.LocalModeCollectsEveryType` | code_lambdas/src/fipe_api/fipe_manufacturer_loader.py:33-99 | in local mode the run collects the messages of types 3, 1 and 2 in order; a failing type contributes nothing and nothing is sent |
| `ManufacturerLister.QueueModeSendsEachType` | code_lambdas/src/fipe_api/fipe_manufacturer_loader.py:39-83 | outside local mode the types 3, 1, 2 each send, in order, the prefix of their messages that comes before the first raising send, with the send calls numbered on across types; nothing is collected locally |
| `ManufacturerLister.MessagesCarryReference` | code_lambdas/src/fipe_api/fipe_manufacturer_loader.py:63-69 | every message carries the client's reference table and month and a vehicle type from the list |
| `ManufacturerLister.CappedRunEmitsAtMostThreePerType` | src/fipe_api/fipe_manufacturer_loader.py:49-52 | with the cap on (`STAGE == 'dev'` in the src copy), no type yields more than three messages |
| `ManufacturerLister.MissingValueIsSentAsNone` | code_lambdas/src/fipe_api/fipe_manufacturer_loader.py:54-59 | a brand without `Value` is not skipped: its code is sent as "None" |
| `ModelExpander.EmitModels` | code_lambdas/src/fipe_api/fipe_model_loader.py:94-117 | the model loop equals its specification |
| `ModelExpander.FetchModels` | code_lambdas/src/fipe_api/fipe_model_loader.py:74-141 | the retry loop equals its specification |
| `ModelExpander.LambdaHandler` | code_lambdas/src/fipe_api/fipe_model_loader.py:12-184 | a client failure or a missing queue gives 500 with every id; otherwise 200 with the failures of the specified run |
| `ModelExpander.IncompleteRecordFailsWithoutCall` | code_lambdas/src/fipe_api/fipe_model_loader.py:53-66 | an unreadable body, or one missing a required field, fails the record with no catalog call |
| `ModelExpander.EmitKeepsCallsAndFailures` | code_lambdas/src/fipe_api/fipe_model_loader.py:94-117 | the model loop makes no `get_models` call and drops no failure |
| `ModelExpander.FetchCallsBounded` | code_lambdas/src/fipe_api/fipe_model_loader.py:74-136 | the retry loop makes between one call and as many calls as it has retries |
| `ModelExpander.RecordCallsAtMostTwo` | code_lambdas/src/fipe_api/fipe_model_loader.py:74-141 | each record costs at most two `get_models` calls |
| `ModelExpander.ThrottledTwiceFailsOnce` | code_lambdas/src/fipe_api/fipe_model_loader.py:122-141 | two 429s: pauses of 5 and 10 seconds, no third call, the record failed once |
| `ModelExpander.ThrottledOnceRetries` | code_lambdas/src/fipe_api/fipe_model_loader.py:122-127 | one 429 costs one call and 5 seconds, then one retry with the delay doubled |
| `ModelExpander.ImmediateFailureNoRetry` | code_lambdas/src/fipe_api/fipe_model_loader.py:79-136 | another error or an unexpected reply fails the record after one call, with the buffer untouched |
| `ModelExpander.EmitFailsAtMostOnce` | code_lambdas/src/fipe_api/fipe_model_loader.py:108-136 | a model loop ended by a raising send leaves the record's id as the last failure |
| `ModelExpander.EmitConservesMessages` | code_lambdas/src/fipe_api/fipe_model_loader.py:94-117 | when no send raises, handed-over plus buffered messages grow by exactly the model messages, in order |
| `ModelExpander.EmitSendsFullBatches` | code_lambdas/src/fipe_api/fipe_model_loader.py:108-117 | in-loop sends hand over exactly ten messages and leave fewer than ten |
| `ModelExpander.RecordKeepsCalm` | code_lambdas/src/fipe_api/fipe_model_loader.py:48-149 | with sends accepted, a record keeps every handed-over buffer full and the buffer below ten |
| `ModelExpander.FetchKeepsCalm` | code_lambdas/src/fipe_api/fipe_model_loader.py:74-136 | the same for the retry loop |
| `ModelExpander.EmitNeverRaisesWhenAccepted` | code_lambdas/src/fipe_api/fipe_model_loader.py:108-117 | with every batch call accepted, the model loop completes |
| `ModelExpander.RecordsKeepCalm` | code_lambdas/src/fipe_api/fipe_model_loader.py:48-149 | the same for the record loop |
| `ModelExpander.FlushRule` | code_lambdas/src/fipe_api/fipe_model_loader.py:108-161 | with sends accepted, every buffer sent holds exactly ten messages except the final one, which holds one to ten |
| `ModelExpander.FinalFlushFailureFailsEveryRecord` | code_lambdas/src/fipe_api/fipe_model_loader.py:152-161 | a raising final send adds every record's id to the failures |
| `PriceCollector.ReadMessage` | code_lambdas/src/fipe_api/fipe_price_loader.py:53-60 | KeyError exactly when a required key is missing; otherwise the message keeps its table and model codes |
| `PriceCollector.FuelTypeCodeOfReturnedCode` | code_lambdas/src/fipe_api/fipe_price_loader.py:78 | the codes `get_years` returns are sent unchanged |
| `PriceCollector.PriceAttempt` | code_lambdas/src/fipe_api/fipe_price_loader.py:68-111 | the year and fuel loops equal their specification |
| `PriceCollector.PriceRecord` | code_lambdas/src/fipe_api/fipe_price_loader.py:62-135 | the retry loop equals its specification |
| `PriceCollector.CollectRecord` | code_lambdas/src/fipe_api/fipe_price_loader.py:46-143 | one record equals its specification |
| `PriceCollector.Flush` | code_lambdas/src/fipe_api/fipe_price_loader.py:21-31 | `send_batch` equals its specification |
| `PriceCollector.LambdaHandler` | code_lambdas/src/fipe_api/fipe_price_loader.py:13-167 | a client failure propagates; a missing queue gives 500 with every id; otherwise 200 with the failures of the specified run |
| `PriceCollector.IncompleteMessageFailsWithoutCall` | code_lambdas/src/fipe_api/fipe_price_loader.py:49-60 | an unreadable or incomplete message fails with no catalog call and no row |
| `PriceCollector.FuelsFromFacts` | code_lambdas/src/fipe_api/fipe_price_loader.py:77-110 | the fuel loop only appends rows, at most one per price call, and a completed loop asks once per fuel |
| `PriceCollector.YearsFromFacts` | code_lambdas/src/fipe_api/fipe_price_loader.py:72-110 | the year loop makes no `get_years` call, never withdraws a row, adds at most one row per price call, and a completed loop makes exactly one price call per (year, fuel) pair |
| `PriceCollector.FuelsFromAddsYearRows` | code_lambdas/src/fipe_api/fipe_price_loader.py:77-108 | a completed fuel loop appends exactly the reference rows of its fuels: one `RowOf` for each fuel whose price reply is a non-empty object, in fuel order |
| `PriceCollector.FuelsFromCompletes` | code_lambdas/src/fipe_api/fipe_price_loader.py:77-108 | the fuel loop completes exactly when every one of its price replies is an object or a falsy answer |
| `PriceCollector.YearsFromAddsCrossRows` | code_lambdas/src/fipe_api/fipe_price_loader.py:72-108 | a completed year loop appends exactly the reference rows of every (year, fuel) pair, year-major, the pair (`i`, `j`) priced by reply number `base + i * |fuels| + j` |
| `PriceCollector.YearsFromCompletes` | code_lambdas/src/fipe_api/fipe_price_loader.py:72-110 | the year loop completes exactly when every price reply of its pairs is an object or a falsy answer |
| `PriceCollector.AttemptAddsCrossRows` | code_lambdas/src/fipe_api/fipe_price_loader.py:65-110 | a record whose `get_years` answers and whose price replies all let the loops go on is not failed, makes one `get_years` call and one price call per pair, and appends exactly the reference rows |
| `PriceCollector.AttemptsFacts` | code_lambdas/src/fipe_api/fipe_price_loader.py:62-135 | the retries make at most `retries` year calls and at most one row per price call |
| `PriceCollector.RecordCallsBounded` | code_lambdas/src/fipe_api/fipe_price_loader.py:62-135 | a record makes at most two `get_years` calls and adds at most one row per price call |
| `PriceCollector.FuelsFromRows` | code_lambdas/src/fipe_api/fipe_price_loader.py:77-110 | each row carries the message, one of the years and the code of one of the fuels |
| `PriceCollector.YearsFromRows` | code_lambdas/src/fipe_api/fipe_price_loader.py:72-110 | the same for the year loop |
| `PriceCollector.AttemptRowsComeFromCatalog` | code_lambdas/src/fipe_api/fipe_price_loader.py:72-106 | every row has the message's codes, an all-digit year and a returned fuel code, and its label comes from the reply |
| `PriceCollector.YearsThrottledTwiceFails` | code_lambdas/src/fipe_api/fipe_price_loader.py:114-135 | two 429s from `get_years`: pauses 1, 5, 1, 10, no price asked, the record failed |
| `PriceCollector.PriceThrottleDuplicatesRows` | code_lambdas/src/fipe_api/fipe_price_loader.py:84-121 | a 429 from `get_price` restarts the record and leaves the rows of the first attempt in the buffer, so a row is emitted twice |
| `PriceCollector.EmptyFlushSendsNothing` | code_lambdas/src/fipe_api/fipe_price_loader.py:21-26 | sending an empty buffer makes no call and adds no failure |
| `PriceCollector.SendRaiseFailsEveryRecord` | code_lambdas/src/fipe_api/fipe_price_loader.py:27-31 | a raising send fails every record of the event |
| `PriceCollector.InLoopSendCount` | code_lambdas/src/fipe_api/fipe_price_loader.py:145-148 | the record loop sends after every tenth record: `n / 10` buffers for `n` records |
| `PriceCollectorSingleFlush.LambdaHandler` | src/fipe_api/fipe_price_loader.py:13-155 | a client failure propagates; a missing queue gives 500; otherwise 200 with the failures of the run with one final send |
| `PriceCollectorSingleFlush.RecordsSendNothing` | src/fipe_api/fipe_price_loader.py:31-128 | the record loop hands nothing to the queue |
| `PriceCollectorSingleFlush.SingleSend` | src/fipe_api/fipe_price_loader.py:130-140 | at most one buffer is sent, holding every row |
| `PriceCollectorSingleFlush.LoopsAgree` | src/fipe_api/fipe_price_loader.py:31-128 | the two collectors' loops make the same catalog calls and produce the same rows in the same order |
| `PriceCollectorSingleFlush.SameRowsBothCollectors` | src/fipe_api/fipe_price_loader.py:130-140 | both collectors hand the queue the same rows in the same order; only the batching differs |
| `Ingestor.MissingMembers` | code_lambdas/src/fipe_api/fipe_soma_ingestor.py:259-276 | a key is reported exactly when it is required and its value is False or 0 |
| `Ingestor.NotIncludedEmpty` | code_lambdas/src/fipe_api/fipe_soma_ingestor.py:259-280 | validation passes exactly when no required value is False or 0 |
| `Ingestor.GetDbConnection` | code_lambdas/src/fipe_api/fipe_soma_ingestor.py:13-56 | ValueError without settings; otherwise the connection loop with up to four attempts |
| `Ingestor.InsertModelValue` | code_lambdas/src/fipe_api/fipe_soma_ingestor.py:154-223 | the tables and the outcome are those of the specification |
| `Ingestor.ProcessMessage` | code_lambdas/src/fipe_api/fipe_soma_ingestor.py:225-313 | the tables and the outcome are those of the specification |
| `Ingestor.IngestRecord` | code_lambdas/src/fipe_api/fipe_soma_ingestor.py:344-367 | one pass of the record loop equals its specification |
| `Ingestor.LambdaHandler` | code_lambdas/src/fipe_api/fipe_soma_ingestor.py:315-385 | without `SQS_INPUT_URL`, 500 with every id and no change; otherwise the specified run, 200 with no failures or its exception |
| `Ingestor.ValidationChecksOnlyFalse` | code_lambdas/src/fipe_api/fipe_soma_ingestor.py:244-276 | a missing required key is reported, but text and null values pass, even empty text |
| `Ingestor.ConnectFacts` | code_lambdas/src/fipe_api/fipe_soma_ingestor.py:36-56 | at most four attempts; it stops at the first success and connects exactly when an attempt succeeds |
| `Ingestor.StoreValueKeepsConsistent` | code_lambdas/src/fipe_api/fipe_soma_ingestor.py:154-223 | the insert step keeps the tables consistent, touches only the price table, adds at most one row, and stores the message's key when it succeeds |
| `Ingestor.StoreValueSucceeds` | code_lambdas/src/fipe_api/fipe_soma_ingestor.py:163-223 | it succeeds exactly when the price parses and the row exists or the vehicle type converts to int; a failure changes nothing |
| `Ingestor.CatalogRowsFound` | code_lambdas/src/fipe_api/fipe_soma_ingestor.py:286-300 | afterwards a manufacturer row and a model row carry the message's values |
| `Ingestor.ProcessKeepsConsistent` | code_lambdas/src/fipe_api/fipe_soma_ingestor.py:225-313 | a message keeps the tables consistent, removes no catalog row and adds at most one price row |
| `Ingestor.StoredPriceRow` | code_lambdas/src/fipe_api/fipe_soma_ingestor.py:170-216 | a successful insert step leaves a row holding the parsed price under the message's key |
| `Ingestor.ProcessStoresPrice` | code_lambdas/src/fipe_api/fipe_soma_ingestor.py:225-306 | after a processed message a price row holds its price, fipe code, year and month, linked to a model with its name and code |
| `Ingestor.BadPriceKeepsCatalogRows` | code_lambdas/src/fipe_api/fipe_soma_ingestor.py:286-303 | an unparsable price fails the message but leaves the committed manufacturer and model rows |
| `Ingestor.RedeliveryAddsNoRow` | code_lambdas/src/fipe_api/fipe_soma_ingestor.py:225-306 | processing a message again adds no row of any table |
| `Ingestor.HandleOutcome` | code_lambdas/src/fipe_api/fipe_soma_ingestor.py:344-367 | the loop ends without an exception only if every record has a body that passes validation |
| `Ingestor.HandleRaises` | code_lambdas/src/fipe_api/fipe_soma_ingestor.py:344-367 | the exception is ValueError without connection settings and NameError with them |
| `Ingestor.HandleKeepsConsistent` | code_lambdas/src/fipe_api/fipe_soma_ingestor.py:344-367 | the loop keeps the tables consistent and removes no catalog row, whether or not it raises |
| `IngestorSharedConnection.GetDbConnection` | src/fipe_api/fipe_soma_ingestor.py:13-48 | ValueError without settings; a failed single attempt raises; otherwise connected |
| `IngestorSharedConnection.InsertModelValue` | src/fipe_api/fipe_soma_ingestor.py:136-204 | the tables and the outcome are those of the specification |
| `IngestorSharedConnection.ProcessRecord` | src/fipe_api/fipe_soma_ingestor.py:237-295 | the tables and the outcome are those of the specification |
| `IngestorSharedConnection.LambdaHandler` | src/fipe_api/fipe_soma_ingestor.py:206-320 | without a connection, 500 with every id and no change; otherwise 200 with the failures and the count of the specified run |
| `IngestorSharedConnection.ValidationRequiresCodes` | src/fipe_api/fipe_soma_ingestor.py:245-263 | validation passes exactly when the codes and vehicle type are present and truthy and the names and fipe code are absent or truthy |
| `IngestorSharedConnection.CatalogRowsFound` | src/fipe_api/fipe_soma_ingestor.py:268-282 | afterwards a manufacturer row and a model row carry the message's values or their defaults |
| `IngestorSharedConnection.StoreValueFacts` | src/fipe_api/fipe_soma_ingestor.py:136-204 | succeeds exactly when the price parses; a failure changes nothing; at most one row is added |
| `IngestorSharedConnection.ProcessOutcome` | src/fipe_api/fipe_soma_ingestor.py:237-295 | a message is processed exactly when accepted; the tables stay consistent and a failure adds no price row |
| `IngestorSharedConnection.ProcessSucceeds` | src/fipe_api/fipe_soma_ingestor.py:237-295 | whether a message is processed does not depend on the tables |
| `IngestorSharedConnection.FailedIdsMembers` | src/fipe_api/fipe_soma_ingestor.py:260-295 | an id is reported exactly when it belongs to a message that is not accepted |
| `IngestorSharedConnection.RecordsFromFailures` | src/fipe_api/fipe_soma_ingestor.py:236-295 | the loop appends the ids of the messages that are not accepted, in order |
| `IngestorSharedConnection.RecordsFromCounts` | src/fipe_api/fipe_soma_ingestor.py:236-295 | each record is either counted as processed or reported |
| `IngestorSharedConnection.RecordsFromConsistent` | src/fipe_api/fipe_soma_ingestor.py:236-295 | the loop keeps the tables consistent and removes no catalog row |
| `IngestorSharedConnection.HandlerReport` | src/fipe_api/fipe_soma_ingestor.py:233-320 | with a connection the failures are exactly the ids of messages not accepted; processed plus failed equals the number of records |
| `IngestorSharedConnection.MissingNamesStoredAsUnknown` | src/fipe_api/fipe_soma_ingestor.py:245-285 | a message without manufacturer or model name is stored under rows named "Unknown" |
| `IngestorSharedConnection.ProcessStages` | src/fipe_api/fipe_soma_ingestor.py:260-285 | a validated message goes through the catalog stage, which yields its rows, and then the insert step |
| `IngestorSharedConnection.MissingPriceFails` | src/fipe_api/fipe_soma_ingestor.py:253 | a message without a price is never processed: the default "Unknown" does not parse |
| `IngestorSharedConnection.ValidationsDiffer` | src/fipe_api/fipe_soma_ingestor.py:245-263 | a missing manufacturer fails the code_lambdas check but passes this one; an empty manufacturer passes the code_lambdas check but fails this one |
| `IngestorSharedConnection.InsertVehicleTypeDiffers` | src/fipe_api/fipe_soma_ingestor.py:176-197 | for a new row whose vehicle type is not an integer, the code_lambdas copy fails while this one stores the value as it came |

## Left out

- Network, queue, database and clock I/O: the calls are parameters. The lister, the expander and the collectors record `time.sleep` as a list of pauses; the ingestors' one-second pause after a failed connection attempt (code_lambdas/src/fipe_api/fipe_soma_ingestor.py:54) is not recorded.
- Logging and `print`.
- Concurrency between invocations.
- JSON floats, lists and nested objects: values are the scalars null, booleans, integers and text, and a message is a dictionary of them.
- A catalog item that is not a dictionary.
- `float()` accepts only plain decimals with an optional leading `+` or `-`. Exponents, `inf`, `nan` and underscores are treated as errors; `int()` likewise accepts an optional leading sign and digits.
- Unicode: `isspace` and `lower` cover ASCII and Latin-1 only, and `isdigit` covers only the ASCII digits `0`-`9` (Python also accepts superscripts and other Unicode digits).
- The order in which Python enumerates a set is a parameter of the collectors.
- A record without `messageId`. This also covers the src ingestor's outer handler at src/fipe_api/fipe_soma_ingestor.py:297-299, which only such a record can reach.
- SQL typing and transactions. Table columns hold the values as passed. A rollback is not modelled, since no modelled step can fail after a commit.
- Store.FindManufacturer, Store.FindModel and Store.FindValue compare with Python equality, so a null matches a null; SQL `col = NULL` never matches. A message with a null manufacturer, manufacturer code or vehicle type therefore gets a new manufacturer row on every delivery in the source, not the one row the model keeps.
- Store.ManufacturerGetOrCreateIdempotent, Store.ModelGetOrCreateIdempotent and Ingestor.RedeliveryAddsNoRow hold only under that equality: with SQL `NULL` semantics a redelivered message with a null key column adds rows.
- IngestorSharedConnection.KeyOf: the src ingestor passes `fipe_code`, `model_year_code` and `codigoTabelaReferencia` to the price lookup as they arrive, and its model name and code to the model lookup; the model compares them after `str()`. A JSON null in `model_year_code` or `codigoTabelaReferencia` (the two the validation does not require) is then the text "None" and matches itself, where SQL `NULL` matches nothing, and an integer matches its decimal text.
- Closing the connection: `conn.close()` errors in code_lambdas and the `finally` in src.
- `if not bool(conn)` in `process_message`, because a connection handed to it is never falsy.
- `get_db_password`: its outcome is folded into the connection outcome.
- The local output file of the manufacturer lister.
- `get_brands` returning something other than a list.
- `FipeAPI.send_message_sqs` is reduced to whether each call raises.
- ApiService.Chunks: requires a positive size. Python's `range` raises for a step of 0, and the only caller passes 10.
- ModelExpander.LambdaHandler: it does not model the case of `SQS_OUTPUT_URL` missing after `FipeAPI()` succeeded separately from a client failure; both answer 500 with every id, as the source does.
