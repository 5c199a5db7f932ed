# Warehouse inventory: upload parsing, product rules and the store

A Dafny model of the core of the Django "warehouse" inventory service:

- the parsers that turn uploaded JSON documents into article and product
  records, qualifying every failure with its position in the document
  (`inventory/upload_parsers.py`), and the older article parser and upsert of
  `inventory/business_logic.py`;
- the product rules of `inventory/business_logic/business_logic.py`:
  availability from article stock, the two checks that guard product creation
  and their exception messages, and `save_products`;
- the repositories of `inventory/repositories.py`: partitioning candidate keys
  by whether the store holds them, the article upsert, and product creation
  with requirements.

The three tables of `inventory/models.py` are a `Database` class (`store.dfy`)
whose bulk statements are atomic and reject rows that break the schema's
non-negativity (`PositiveIntegerField`), primary-key and foreign-key
constraints; the columns' integer ranges are not modelled.

Files, leaves first: `text.dfy` (Python string built-ins), `json.dfy` (decoded
JSON and `int()`), `sequences.dfy` (`flat_list`, de-duplication), `records.dfy`
(the data classes), `upload_parsers.dfy`, `legacy_parser.dfy`,
`parser_comparison.dfy` (how the two list walkers differ), `store.dfy`,
`repositories.dfy`, `product_business.dfy`.

Outcomes of a parsing step are `Ok(value)`, `Err(messages)` (an
`InvalidDataUploadError` / `InvalidDataUploadException`) or `Fault` (any other
exception, such as the `TypeError` of `int(None)`, which no parser catches).

Points of the code's behaviour that the model keeps as they are:

- `parse_list_items` raises inside its loop, so the current parsers stop at
  the first failing element with a single message; only the legacy
  `_parse_article_list` collects one message per failing element
  (`ParserComparison.WalkersAgree` states the exact relation).
- Requirement items are reported under `products[i][j]`, not
  `products[i].contain_articles[j]`.
- `int(True)` is `1`, so a boolean is accepted as a number.
- Saving articles is two statements without a transaction: a rejected insert
  leaves the preceding update in place (`Store.SaveArticlesSpec`).

## Model

| member | source | states |
|---|---|---|
| PyText.Strip | inventory/upload_parsers.py:33 | `str.strip()`: the result has no whitespace at either end and is a slice of the input with only whitespace cut on either side |
| PyText.StripIdempotent | inventory/upload_parsers.py:33 | stripping a stripped name again changes nothing |
| PyText.NatToStringRoundTrip | inventory/upload_parsers.py:47 | the decimal text of an index reads back as that index |
| JsonValue.ToInt | inventory/upload_parsers.py:24 | `int()`: an int is returned unchanged; `TypeError` exactly for null, list and dict; `ValueError` only for strings |
| JsonValue.ToIntOfIntString | inventory/upload_parsers.py:24 | `int(str(i)) == i` for every integer |
| Sequences.FlatListLength | inventory/business_logic/business_logic.py:68-69 | the flattened list's length is the sum of the group lengths |
| Sequences.FlatListAppend | inventory/business_logic/business_logic.py:68-69 | flattening distributes over concatenation, so group and item order are kept |
| Sequences.FlatListFrom | inventory/business_logic/business_logic.py:68-69 | every item of the flattened list comes from some group |
| Sequences.FlatListHas | inventory/business_logic/business_logic.py:68-69 | every item of every group is in the flattened list |
| Sequences.Dedup | inventory/business_logic/business_logic.py:41 | `set(...)`: the same members, none twice |
| UploadParsers.ErrorMessage | inventory/upload_parsers.py:4-7 | the text of an error with one message is that message |
| UploadParsers.ErrorMessageSplits | inventory/upload_parsers.py:4-7 | the newline-joined text splits back into the messages when none holds a newline |
| UploadParsers.ParseField | inventory/upload_parsers.py:15-19 | succeeds exactly on a dict holding the key, returning its value unchanged; a missing key gives the one message `attribute ctx.name: not found`; a dict never raises a foreign exception |
| UploadParsers.ParseNumericField | inventory/upload_parsers.py:21-26 | accepted exactly when the field is present and `int()` converts it, giving that integer; `ValueError` gives `expected number`, a missing field `not found`, and a `TypeError` (e.g. `null`) escapes uncaught |
| UploadParsers.ParseStringField | inventory/upload_parsers.py:28-33 | accepted exactly when the field is a present string, giving `str.strip()` of it (stripped, so stripping again changes nothing); a present non-string gives `expected string` |
| UploadParsers.ParseListField | inventory/upload_parsers.py:35-40 | succeeds exactly on a present list, returned unchanged; a present non-list gives `expected list` |
| UploadParsers.ParseListItems | inventory/upload_parsers.py:42-54 | the loop with its error check inside returns the walk `ListItems` |
| UploadParsers.ListItemsOk | inventory/upload_parsers.py:42-54 | the walk succeeds exactly when every element parses; the result then has one entry per element, entry `i` parsed under `ctx[i]` |
| UploadParsers.ListItemsPrefixFailure | inventory/upload_parsers.py:51-52 | once an element fails, no later element changes the outcome |
| UploadParsers.ListItemsStopsAtFirstFailure | inventory/upload_parsers.py:45-52 | the walk raises the first failing element's error alone, and any list agreeing up to that element gives the same outcome |
| UploadParsers.ListItemsSingleError | inventory/upload_parsers.py:51-52 | a failed walk carries exactly one message |
| UploadParsers.ParseArticle | inventory/upload_parsers.py:65-70 | accepted exactly when `art_id`, `name` and `stock` all parse, giving those values with the name stripped; otherwise the first failing field's error, in the order `art_id`, `name`, `stock`, with one message |
| UploadParsers.ParseArticlesSpec | inventory/upload_parsers.py:61-63 | a missing `inventory` key is reported under `root`; an `inventory` list is accepted exactly when every element parses under `inventory[i]`, giving one article per element with its name stripped; a failure carries one message |
| UploadParsers.ParseProductRequirement | inventory/upload_parsers.py:88-95 | accepted exactly when `art_id` and `amount_of` parse and `amount_of > 0`, giving those values; otherwise the first failing field's error, or for `amount_of <= 0` the attribute message for `quantity` |
| UploadParsers.ParseProductRequirementAsWritten | inventory/upload_parsers.py:92-93 | as written, `amount_of <= 0` raises an error of three separate messages |
| UploadParsers.QuantityMessageAsWritten | inventory/upload_parsers.py:92-93 | on a zero `amount_of` the as-written message is three lines, the corrected one the attribute message |
| UploadParsers.ParseProduct | inventory/upload_parsers.py:81-86 | accepted exactly when `name` parses, `contain_articles` is a list and every requirement in it parses, giving the stripped name and those requirements; otherwise the first failure in that order, with one message |
| UploadParsers.ParseProductSpec | inventory/upload_parsers.py:81-86 | one requirement per `contain_articles` item, item `j` parsed under `ctx[j]`, every quantity positive |
| UploadParsers.ParseProductsSpec | inventory/upload_parsers.py:77-79 | a missing `products` key is reported under `root`; a `products` list is accepted exactly when every element parses under `products[i]`, giving one product per element; every requirement has quantity > 0 |
| LegacyBusinessLogic.ParseArticleUnder | inventory/business_logic.py:27-47 | succeeds exactly when the three field helpers do, with `int()` of `art_id`/`stock` and the raw `name`; otherwise the outcome is the first failing field's, in the order `art_id`, `name`, `stock` (its one message under the context, or an escaping `TypeError` such as `int(None)`) |
| LegacyBusinessLogic.ParseArticle | inventory/business_logic.py:28-29 | element `index` is parsed under `inventory[index]`; a failure carries one message |
| LegacyBusinessLogic.ParseSpec | inventory/business_logic.py:9-11 | a missing or non-list `inventory` gives the single `root` message; otherwise every element is tried: a foreign exception escapes exactly when some element raises one, and otherwise the upload is accepted exactly when no element fails, with one model per element in order, or rejected with one message per failing element in index order |
| LegacyBusinessLogic.NameNotChecked | inventory/business_logic.py:31 | any JSON value is accepted as a name, unchanged |
| LegacyBusinessLogic.ParseArticleSingleMessages | inventory/business_logic.py:36-47 | every error the element parser raises holds one message |
| LegacyBusinessLogic.ParseArticleList | inventory/business_logic.py:13-26 | the loop with its error check after it returns the walk `CollectAll` |
| LegacyBusinessLogic.CrashedStays | inventory/business_logic.py:16-21 | an exception the loop does not catch ends the whole walk |
| LegacyBusinessLogic.CollectPrefixCrashed | inventory/business_logic.py:16-21 | the walk crashes exactly when some element raises a foreign exception |
| LegacyBusinessLogic.CollectPrefixContents | inventory/business_logic.py:16-21 | after `n` steps: one message per failing element, in index order; with none, one model per element |
| LegacyBusinessLogic.CollectAllSpec | inventory/business_logic.py:13-26 | without foreign exceptions, the walk fails with exactly one message per failing element, in order, or returns one model per element, in order |
| LegacyBusinessLogic.SaveArticleUploads | inventory/business_logic.py:56-64 | stored ids go through `bulk_update`, the rest through `bulk_create`; the new table and status are `SaveArticlesSpec`; products and requirements unchanged |
| ParserComparison.AgreeWhenAllParse | inventory/upload_parsers.py:42-54 | when every element parses, both walkers return the same models |
| ParserComparison.AgreeAtFirstFailure | inventory/upload_parsers.py:45-52 | at the first failing element the new walker raises that element's error; the legacy walker fails too, with the same first message |
| ParserComparison.WalkersAgree | inventory/business_logic.py:13-26 | both walkers accept the same lists with the same result; where the legacy one reports messages the new one reports the first alone; a foreign exception in the new one is one in the legacy one |
| ParserComparison.LegacyArticleWalks | inventory/business_logic.py:28-34 | the same relation for the legacy article parser under both walkers |
| ParserComparison.TwoEmptyArticles | inventory/business_logic.py:16-24 | `{"inventory":[{},{}]}`: the new parser reports `inventory[0]` only, the legacy one both elements in order |
| Store.UploadRows | inventory/business_logic.py:63-64 | a batch writes one row per id it names, the row of the id's first occurrence |
| Store.UpsertedSpec | inventory/business_logic.py:56-64 | after an upsert the keys are the stored and uploaded ids; an uploaded id holds its uploaded name and stock; other ids are unchanged |
| Store.SaveArticlesIdempotent | inventory/business_logic.py:56-64 | saving the same batch a second time ends with the same status and the same table as the first save, whether the update was rejected, the create was rejected after the update, or the batch was saved |
| Store.ArticlesWithIds | inventory/business_logic.py:60 | the articles whose id was found stored, in batch order |
| Store.ArticlesWithoutIds | inventory/business_logic.py:61 | the articles whose id was not found stored, in batch order |
| Store.GroupsPartition | inventory/business_logic.py:60-61 | the two groups are disjoint and together hold the batch, each article as often as the batch |
| Store.GroupsByStoredIds | inventory/business_logic.py:58-61 | filtering by the stored ids among the batch's ids is filtering by the stored ids |
| Store.SaveArticlesSucceeds | inventory/business_logic.py:63-64 | a batch with no negative stock and no id repeated among its new articles is saved |
| Store.SaveArticlesSavedTable | inventory/business_logic.py:63-64 | a saved batch leaves exactly the upserted table |
| Store.UpsertByGroups | inventory/business_logic.py:60-64 | updating the stored group, then inserting the other, writes the same table as upserting the batch |
| Store.NewProductRowsFresh | inventory/repositories.py:32-33 | products created from the next auto-increment value get ids no stored product has, increasing along the table, and the next value moves past them |
| Store.Database.constructor | inventory/models.py:3-14 | an empty database satisfies the schema's constraints |
| Store.Database.BulkUpdateArticles | inventory/business_logic.py:63 | accepted exactly when no written stock is negative; then stored ids take the batch's name and stock; the key set never changes |
| Store.Database.BulkCreateArticles | inventory/business_logic.py:64 | accepted exactly when no id is stored or repeated and no stock is negative; then every row is inserted |
| Store.Database.BulkCreateProducts | inventory/repositories.py:32-33 | appends one product per name with consecutive new ids and returns them |
| Store.Database.BulkCreateRequirements | inventory/repositories.py:40 | accepted exactly when every row refers to a stored article and product with quantity >= 0; then the rows are appended |
| Store.Database.RollBack | inventory/business_logic/business_logic.py:22 | a rolled-back transaction restores the saved state, which met the schema constraints, so the store is valid again |
| Repositories.MissingIds | inventory/repositories.py:9 | the candidates the store lacks, and only those |
| Repositories.MissingIdsAppend | inventory/repositories.py:9 | the missing side keeps input order: it distributes over concatenation |
| Repositories.MissingIdsNoDuplicates | inventory/repositories.py:9 | distinct candidates give distinct missing ids |
| Repositories.PartitionIds | inventory/repositories.py:6-11 | stored side = candidates in the store; missing side = candidates not in it; every candidate is on exactly one side |
| Repositories.SaveArticles | inventory/repositories.py:13-20 | partitions the batch's ids, updates the stored group and inserts the missing one; the result is `SaveArticlesSpec`, as for the legacy upsert |
| Repositories.StoredNamesAmong | inventory/repositories.py:25-26 | the names of stored products that are candidates, and only those |
| Repositories.NamesNotIn | inventory/repositories.py:27 | exactly the candidates not among the stored names, no more of them than there are candidates |
| Repositories.NamesNotInAppend | inventory/repositories.py:27 | the missing names of a concatenation are those of each part, in turn, so input order and repetitions are kept |
| Repositories.PartitionNames | inventory/repositories.py:24-29 | stored side = candidate names some stored product has; missing side = the other candidates (in input order, by `NamesNotInAppend`) |
| Repositories.RequirementsOfMapped | inventory/repositories.py:42-46 | the rows made from one product's requirements, read back by product id, give exactly those requirements in order, and none for any other id |
| Repositories.CreateProducts | inventory/repositories.py:31-40 | products appended with new ids and names in order; requirement rows inserted exactly when every requirement names a stored article with quantity >= 0 |
| Repositories.RequirementRowsAccepted | inventory/repositories.py:40 | the requirement insert is accepted exactly when every requirement names a stored article with quantity >= 0 |
| Repositories.RequirementRowsCount | inventory/repositories.py:35-40 | the number of requirement rows is the sum of the products' requirement counts |
| Repositories.RequirementsOfCreated | inventory/repositories.py:31-46 | product `start + i` receives exactly DTO `i`'s requirements, in order; no other id receives any |
| ProductBusiness.FloorDiv | inventory/business_logic/business_logic.py:37 | Python `//`: the quotient rounded toward minus infinity for either sign of divisor |
| ProductBusiness.MinQuotient | inventory/business_logic/business_logic.py:37 | `min`: no greater than any quotient and equal to one of them |
| ProductBusiness.Availability | inventory/business_logic/business_logic.py:36-37 | defined exactly for a non-empty list without zero quantity; then the smallest `stock // quantity` |
| ProductBusiness.AvailabilityBuildable | inventory/business_logic/business_logic.py:36-37 | with positive quantities and non-negative stock: availability >= 0, availability × quantity <= stock for every requirement, and one more exceeds some stock |
| ProductBusiness.AvailabilityExample | inventory/business_logic/business_logic.py:37 | (stock 5, qty 2) and (stock 9, qty 3) give 2 |
| ProductBusiness.GetProductsAvailability | inventory/business_logic/business_logic.py:25-34 | one entry per product, in order, id and name copied; raises when some product's availability does |
| ProductBusiness.ProductAlreadyExistMessageNames | inventory/business_logic/business_logic.py:55-59 | the message is the fixed prefix followed by the names, which splitting at commas gives back |
| ProductBusiness.ArticleNotExistMessageIds | inventory/business_logic/business_logic.py:61-65 | the message is the prefix and the bracketed list; split at commas it gives each id's decimal text |
| ProductBusiness.ArticleNotExistMessageExample | inventory/business_logic/business_logic.py:45 | the ids are passed as one list, so `[1, 2]` reads `Articles dont exist with ids: [1, 2]` |
| ProductBusiness.ValidateProductNamesNotExist | inventory/business_logic/business_logic.py:47-52 | fails exactly when some incoming name is stored, listing every such name |
| ProductBusiness.NameCheckAsWrittenRaises | inventory/repositories.py:27 | a new product on an empty store passes the intended check but makes the as-written one raise |
| ProductBusiness.RequiredArticleIdsMembers | inventory/business_logic/business_logic.py:40-41 | the collected ids are exactly those some requirement of some product refers to |
| ProductBusiness.ValidateRequirementArticlesExist | inventory/business_logic/business_logic.py:39-45 | fails exactly when some referenced article is not stored, listing each missing id once |
| ProductBusiness.SaveProductsCheckPasses | inventory/business_logic/business_logic.py:19-21 | the checks pass exactly when no incoming name is stored and every referenced article is |
| ProductBusiness.CheckedUploadAccepted | inventory/business_logic/business_logic.py:19-23 | parsed products (positive quantities) that pass the checks are accepted by the store |
| ProductBusiness.SaveProducts | inventory/business_logic/business_logic.py:19-23 | the name check first, then the article check; on any failure, including a rejected insert, nothing is created; otherwise the products and their requirements are |

## Left out

- HTTP views, routing and JSON file loading (`inventory/views.py`, `inventory/urls.py`): transport plumbing; the parsers take the decoded document.
- Selling and stock decrement: no such operation exists in the modelled code.
- Concurrency and transaction isolation: every bulk statement is one atomic state change; `transaction.atomic` in `save_products` is a snapshot and `RollBack`.
- The fetch behind `get_products_availability` is left out: the availability listing takes the fetched products as a parameter. As written, it calls `get_products_with_requirement_details` (`inventory/business_logic/business_logic.py:26`), which `ProductRepository` does not define, so the listing raises `AttributeError` on every call.
- JsonValue.ToInt: JSON numbers with a fraction are not modelled, because the JSON values here have no float. In the source, `json.load` (`inventory/views.py:39`) produces a float for `2.5` and `int()` truncates it, so `{"stock": 2.5}` is accepted as stock 2. Underscores in digit strings and non-ASCII digits are not modelled either.
- Store.Database.BulkCreateArticles: the columns' integer ranges (the 64-bit `BigIntegerField` id, the upper bound of `PositiveIntegerField`) are not modelled, so out-of-range ids and stocks are accepted where the database refuses them.
- Store.Database.BulkUpdateArticles: likewise, an out-of-range stock is written where the database refuses it.
- Store.Database.BulkCreateRequirements: likewise, an out-of-range quantity is accepted where the database refuses it.
- `CharField(max_length=128)` and `batch_size=50`: length limits and batching are not modelled.
- LegacyBusinessLogic.SaveArticleUploads: takes article records with a string name; the legacy parser's raw JSON name is not converted.
- Repositories.SaveArticles: models the evident intent. As written, the id iterator (`map`) is consumed by the query, so the missing side would come out empty and no article would be created. The `ArticleDTO` dataclasses handed to `bulk_update` and `bulk_create` (`inventory/repositories.py:19-20`) are treated as rows; as written, `bulk_update` fails on their missing primary key whenever an uploaded id is already stored.
- Repositories.CreateProducts: models the evident intent of the two-argument lambda over `zip` and of `ProductRequirement(**requirement, ...)` on a dataclass, both of which raise as written.
- ProductBusiness.ValidateRequirementArticlesExist: the missing ids keep first-occurrence order, where the source's `set` has no fixed order.
- ProductBusiness.SaveProducts: the rollback also restores the next product id, where a real auto-increment sequence would not go back.
- ProductBusiness.Availability: a missing requirement list is an error outcome rather than a precondition, as `min([])` raises.
- Imports of names that do not exist (`...DTO` names taken from `data_business_objects.py`, `ProductRequirementDTO`, `ProductAvailability`): the record shapes are used under one name each.
- `ArticleBusiness.save_articles` only delegates to `Repositories.SaveArticles` and has no member of its own.

## Findings

| source | as written | input that shows it | evidently intended | confidence | as-written member | corrected member |
|---|---|---|---|---|---|---|
| inventory/upload_parsers.py:93 | `InvalidDataUploadError(obj_context, 'quantity', '...')` gets three arguments, so its text is three lines | a product whose first requirement has `amount_of` 0 | the attribute message `attribute products[0][0].quantity: expected value greater than 0` | high, not executed | UploadParsers.QuantityMessageAsWritten | UploadParsers.ParseProductRequirement |
| inventory/repositories.py:27 | `filter` is called with one argument, which raises `TypeError` on every call | one new product name on an empty store | the names not stored, in input order | high, not executed | ProductBusiness.NameCheckAsWrittenRaises | Repositories.PartitionNames |
