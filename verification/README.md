# Product import core, modelled in Dafny

This project models the core of a Magento 2 bulk product importer: the
staging record that an import builds up per product, the bulk-write layer
that turns column-oriented value batches into chunked multi-row SQL
statements, and the function that turns a product name into a URL key.

- `Product.dfy`: the staging record (`Api/Data/Product.php`).
  - `Product.Product` is a class whose fields are the record's fields.
  - Every setter is a method whose `modifies` clause names the one field it writes.
  - The global store view exists from construction on (`Valid`).
  - Store views and the default stock item are created on first use, and a
    second request returns the same object.
  - For links, "never set" (`None`) and "set to empty" (`Some([])`) stay distinct.
  - `errors` only grows, so once `IsOk()` is false it stays false.
- `DbConnection.dfy`: the bulk-write engine (`Model/Db/Magento2DbConnection.php`).
  - The SQL text builders (`GetMarks`, `GetMarkGroups`, the insert and delete
    templates) are functions.
  - The connection is a class with a ghost `trace` of executed statements.
  - `ChunkedGroupExecute`, `DeleteMultiple` and `DeleteMultipleWithWhere` are
    loops over the chunks. Each is proved to append exactly the statement
    list that a specification function computes.
  - Lemmas about those lists:
    - the statement count is `ceil(n / (1000 * columns))`;
    - no statement is empty and none exceeds `CHUNK_SIZE` rows;
    - every statement but the last is full;
    - the parameters concatenate back to the input;
    - each insert and plain delete statement has one `?` per parameter,
      provided the table, column and update-clause names hold no `?` (inserts
      also need names free of `{`, so that `str_replace` fills only the
      `{{marks}}` spot);
    - for `deleteMultipleWithWhere` no `?` count is proved, because its
      where clause is free text that may hold placeholders of its own;
    - the worked cases: 2500 rows, 1000 rows, 0 rows and 3500 keys.
- `UrlKey.dfy`: `createUrlKeyFromName`
  (`Model/Resource/Resolver/NameToUrlKeyConverter.php`).
  - It is a pipeline of pure functions.
  - The key is always over `[a-z0-9-]`, has no `--`, and has no dash at
    either end.
  - The key is the words of the transliterated, lower-cased name joined by
    single dashes. A word is a maximal run of `[a-z0-9]` characters.
  - So every run of other characters between two words becomes exactly one
    dash: `A--B` gives `a-b`, not `ab`. Runs at either end disappear.
  - Only `[a-z0-9]` characters survive. `strtolower` runs before the
    transliteration, so a capital letter that the transliteration produces
    (`Æ` to `AE`, say) is treated as a separator and becomes a dash.
  - Normalising a key again returns it unchanged.
- `Strings.dfy`: PHP's `trim`, `implode`, `str_repeat` and `str_replace`, as
  far as the core uses them, with their properties.
- `Wrappers.dfy`: `Option`, standing for PHP's `null`-or-value.

Some details of the code that the model keeps:

- The code trims the SKU but accepts an empty one.
- The default stock item is created on first request, not at construction.
- The chunk size is the constant 1000.
- The id setter and the name setter for one attribute do not clear each
  other. For categories, the id setter writes `categoryIds` and the name
  setter writes the unresolved-attributes entry, and both stay in place.

## Model

| member | source | states |
|---|---|---|
| Product.TrimAll | Api/Data/Product.php:272-300 | `array_map('trim', …)`: same length, and every element is the trimmed element at the same position |
| Product.Product.constructor | Api/Data/Product.php:78-82 | the SKU is stored trimmed, so trimming it again changes nothing; the global store view `admin` is the only store view and is a new object; every collection is empty, the tri-state fields are unset and the error list is empty |
| Product.Product.IsOk | Api/Data/Product.php:84-87 | true exactly when no error has been recorded |
| Product.Product.AddError | Api/Data/Product.php:84-92 | appends the message to the error list, keeping every earlier one, after which the record is not ok |
| Product.Product.StoreView | Api/Data/Product.php:138-144 | looks the code up trimmed; an existing bag is returned and nothing changes; a missing code gets a new empty bag added under it and no other entry changes; the global bag stays present |
| Product.Product.Global | Api/Data/Product.php:149-151 | the bag stored under the global code `admin` |
| Product.Product.DefaultStockItem | Api/Data/Product.php:164-170 | returns the item stored under `Default`, creating and storing a new one only if there was none |
| Product.Product.SetCategoryIds | Api/Data/Product.php:180-183 | overwrites the category ids only |
| Product.Product.SetCategoriesByGlobalName | Api/Data/Product.php:196-199 | stores the name paths under `category_ids` in the unresolved attributes; other entries are kept |
| Product.Product.SetAttributeSetId | Api/Data/Product.php:201-204 | sets the attribute set id |
| Product.Product.RemoveAttributeSetId | Api/Data/Product.php:214-217 | unsets the attribute set id |
| Product.Product.SetAttributeSetByName | Api/Data/Product.php:222-225 | stores the name under `attribute_set_id` in the unresolved attributes; other entries are kept |
| Product.Product.SetWebsitesByCode | Api/Data/Product.php:227-230 | stores the codes under `website_ids` in the unresolved attributes; other entries are kept |
| Product.Product.SetWebsitesIds | Api/Data/Product.php:235-238 | overwrites the website ids only |
| Product.Product.RemoveWebsiteIds | Api/Data/Product.php:248-251 | empties the website ids |
| Product.Product.AddImage | Api/Data/Product.php:257-262 | appends one new image with the given path and returns it |
| Product.Product.SetLinkedProductSkus | Api/Data/Product.php:272-285 | the kind's entry becomes the trimmed SKUs; every other kind keeps its entry, or stays absent |
| Product.Product.SetLinkedProductIds | Api/Data/Product.php:287-300 | afterwards the kind reads as `Some` of the trimmed ids; every other kind reads as before |
| Product.Product.GetLinkedProductIds | Api/Data/Product.php:307-317 | `None` exactly when the kind was never set, otherwise the stored list (possibly empty) |
| Product.Product.SetTierPrices | Api/Data/Product.php:319-325 | tier prices become set, even to an empty list, which is distinct from unset |
| Product.Product.SetCustomOptions | Api/Data/Product.php:343-349 | custom options become set, even to an empty list, which is distinct from unset |
| Product.StoreViewTwice | Api/Data/Product.php:138-144 | on any valid record, two requests for the same store view code return the same bag, and two stock requests the same stock item |
| Product.GlobalByName | Api/Data/Product.php:138-151 | on any valid record, a code that trims to `admin` returns the global bag and adds no store view |
| Product.LinkTriState | Api/Data/Product.php:287-317 | on any record, a link kind reads `None` before exactly when it was never set; after it is set to `[]` it reads `Some([])`; another kind reads as before |
| Product.ErrorGate | Api/Data/Product.php:84-92 | on any valid record, `isOk` before reports an empty error list; once an error is added no setter makes the record ok again |
| DbConnection.Chunks | Model/Db/Magento2DbConnection.php:195 | `array_chunk`: every chunk has 1 to `size` elements, all but the last exactly `size`, and the chunks concatenate to the input |
| DbConnection.ChunkCount | Model/Db/Magento2DbConnection.php:195 | there are `ceil(n / size)` chunks, none for empty input, and no trailing empty chunk |
| DbConnection.ChunksOfRowsAligned | Model/Db/Magento2DbConnection.php:195 | chunking a whole number of rows by `CHUNK_SIZE * columns` gives chunks that each hold a whole number of rows |
| DbConnection.GetMarks | Model/Db/Magento2DbConnection.php:164-173 | `?,?,…,?`: one `?` per value, length `2n - 1`, with `?` and `,` alternating |
| DbConnection.MarksAreJoined | Model/Db/Magento2DbConnection.php:164-173 | the marks are `n` copies of `?` joined by `,` |
| DbConnection.RowTemplate | Model/Db/Magento2DbConnection.php:178 | the row template holds one `?` per column |
| DbConnection.GetMarkGroups | Model/Db/Magento2DbConnection.php:175-184 | the value groups hold one `?` per value |
| DbConnection.MarkGroupsAreJoined | Model/Db/Magento2DbConnection.php:175-184 | the value groups are `n / c` copies of `(?,…,?)` with `c` marks, joined by `", "` |
| DbConnection.DeleteWhereExtendsDelete | Model/Db/Magento2DbConnection.php:135-162 | the filtered delete text is the plain delete text followed by `AND` and the clause |
| DbConnection.ChunkedGroupShape | Model/Db/Magento2DbConnection.php:186-200 | the statement count is `ceil(n / (1000c))`; each statement carries 1 to 1000 whole rows, and all but the last exactly 1000; each statement's text is the template with its own chunk's groups; the parameters, in order, are the values |
| DbConnection.InsertVariantsShareChunks | Model/Db/Magento2DbConnection.php:83-126 | plain insert, upsert and insert-ignore send the same parameter chunks |
| DbConnection.InsertQueryText | Model/Db/Magento2DbConnection.php:196-197 | when the names hold no `{`, `str_replace` fills exactly the one `{{marks}}` spot; when they also hold no `?`, the statement has one `?` per parameter |
| DbConnection.InsertStatementText | Model/Db/Magento2DbConnection.php:83-126 | every insert statement is the head, then its own chunk's value groups, then the tail; with names free of `?` it has one placeholder per parameter |
| DbConnection.InsertOf2500Rows | Model/Db/Magento2DbConnection.php:186-200 | 2500 rows go out as 3 statements of 1000, 1000 and 500 rows, in order |
| DbConnection.InsertOf1000Rows | Model/Db/Magento2DbConnection.php:186-200 | exactly 1000 rows go out as one statement, not two |
| DbConnection.InsertOfNoRows | Model/Db/Magento2DbConnection.php:186-200 | no rows means no statement |
| DbConnection.DeleteQueryMarks | Model/Db/Magento2DbConnection.php:135-143 | a delete statement has one `?` per key when the names hold none |
| DbConnection.DeleteShape | Model/Db/Magento2DbConnection.php:128-143 | `ceil(n / 1000)` deletes of 1 to 1000 keys, all but the last full, one `?` per key, and the key chunks in order are the keys |
| DbConnection.DeleteWhereMatchesDelete | Model/Db/Magento2DbConnection.php:145-162 | the filtered delete sends the same chunks as the plain delete, each statement ANDed with the clause |
| DbConnection.DeleteOf3500Keys | Model/Db/Magento2DbConnection.php:128-143 | 3500 keys go out as 4 deletes of 1000, 1000, 1000 and 500 keys |
| DbConnection.Magento2DbConnection.constructor | Model/Db/Magento2DbConnection.php:30-41 | no statement has been executed yet |
| DbConnection.Magento2DbConnection.Execute | Model/Db/Magento2DbConnection.php:50-74 | exactly one statement, with its parameters, is handed to the driver |
| DbConnection.Magento2DbConnection.ChunkedGroupExecute | Model/Db/Magento2DbConnection.php:186-200 | executes exactly the chunked group statements, one per chunk, in order |
| DbConnection.Magento2DbConnection.InsertMultiple | Model/Db/Magento2DbConnection.php:76-90 | executes the chunked `INSERT INTO` statements |
| DbConnection.Magento2DbConnection.InsertMultipleWithUpdate | Model/Db/Magento2DbConnection.php:92-109 | executes the chunked `INSERT INTO … ON DUPLICATE KEY UPDATE` statements |
| DbConnection.Magento2DbConnection.InsertMultipleWithIgnore | Model/Db/Magento2DbConnection.php:111-126 | executes the chunked `INSERT IGNORE INTO` statements |
| DbConnection.Magento2DbConnection.DeleteMultiple | Model/Db/Magento2DbConnection.php:128-143 | executes one `IN (?,…)` delete per chunk of at most 1000 keys, in order |
| DbConnection.Magento2DbConnection.DeleteMultipleWithWhere | Model/Db/Magento2DbConnection.php:145-162 | the same chunked deletes, each with the extra clause |
| UrlKey.ToLower | Model/Resource/Resolver/NameToUrlKeyConverter.php:13 | same length; each ASCII capital is lowered and every other character is kept |
| UrlKey.DashNonKeyChars | Model/Resource/Resolver/NameToUrlKeyConverter.php:15 | same length; each character is kept if it is in `[a-z0-9]` and becomes `-` otherwise; so the result is over `[a-z0-9-]` |
| UrlKey.CollapseDashes | Model/Resource/Resolver/NameToUrlKeyConverter.php:16 | no `--` remains, nothing new appears, the first character is kept, and the result is no longer than the input; what a run becomes is `CollapseRun` |
| UrlKey.CollapseRun | Model/Resource/Resolver/NameToUrlKeyConverter.php:16 | a run of one or more dashes between two parts that do not border it with a dash becomes exactly one dash, and each part is collapsed on its own |
| UrlKey.RunCollapsed | Model/Resource/Resolver/NameToUrlKeyConverter.php:16 | `a--b` collapses to `a-b` |
| UrlKey.CollapseKeepsSingleDashes | Model/Resource/Resolver/NameToUrlKeyConverter.php:16 | a string with no `--` is left unchanged |
| UrlKey.TrimPreservesKeyShape | Model/Resource/Resolver/NameToUrlKeyConverter.php:17 | trimming dashes keeps the alphabet and the absence of `--`, and leaves no edge dash |
| UrlKey.CreateUrlKeyFromName | Model/Resource/Resolver/NameToUrlKeyConverter.php:10-20 | for any name and any transliteration, the key is over `[a-z0-9-]`, has no `--` and has no dash at either end |
| UrlKey.WordsDashNonKey | Model/Resource/Resolver/NameToUrlKeyConverter.php:15 | replacing every character outside `[a-z0-9]` by a dash leaves the words (maximal `[a-z0-9]` runs) unchanged |
| UrlKey.SlugKeyIsJoinedWords | Model/Resource/Resolver/NameToUrlKeyConverter.php:16-17 | on a string over `[a-z0-9-]`, collapsing and then trimming dashes gives its words joined by single dashes |
| UrlKey.CreateUrlKeyIsJoinedWords | Model/Resource/Resolver/NameToUrlKeyConverter.php:10-20 | for any name and any transliteration, the key is the words of the transliterated, lower-cased name joined by single dashes |
| UrlKey.KeyCharsToLower | Model/Resource/Resolver/NameToUrlKeyConverter.php:13 | the `[a-z0-9]` characters of the lowered name are its ASCII letters and digits, lowered, in order |
| UrlKey.KeyCharsDashNonKey | Model/Resource/Resolver/NameToUrlKeyConverter.php:15 | the dash replacement keeps every `[a-z0-9]` character, in order |
| UrlKey.KeyCharsCollapse | Model/Resource/Resolver/NameToUrlKeyConverter.php:16 | collapsing dashes keeps every `[a-z0-9]` character, in order |
| UrlKey.KeyCharsTrim | Model/Resource/Resolver/NameToUrlKeyConverter.php:17 | trimming dashes keeps every `[a-z0-9]` character, in order |
| UrlKey.KeyKeepsLettersAndDigits | Model/Resource/Resolver/NameToUrlKeyConverter.php:10-20 | the key's `[a-z0-9]` characters are exactly those of the transliterated, lowered name, in order |
| UrlKey.AsciiNameKeepsLettersAndDigits | Model/Resource/Resolver/NameToUrlKeyConverter.php:10-20 | for an ASCII name, the key's letters and digits are the name's letters and digits, lowered, in order |
| UrlKey.NoLettersNoKey | Model/Resource/Resolver/NameToUrlKeyConverter.php:10-20 | a name with no letter or digit after transliteration gives the empty key |
| UrlKey.KeepsAsciiKeepsSlugs | Model/Resource/Resolver/NameToUrlKeyConverter.php:14 | a transliteration that leaves ASCII alone leaves `[a-z0-9-]` strings alone |
| UrlKey.CreateUrlKeyIdempotent | Model/Resource/Resolver/NameToUrlKeyConverter.php:10-20 | normalising a key a second time returns it unchanged |
| UrlKey.AmpersandKey | Model/Resource/Resolver/NameToUrlKeyConverter.php:10-20 | `" A&B "` becomes `a-b` |
| UrlKey.RunKey | Model/Resource/Resolver/NameToUrlKeyConverter.php:10-20 | `A--B` becomes `a-b`: the run of two dashes becomes one |

## Left out

- Statement execution itself (PDO `prepare`/`execute`) is not modelled.
  `Execute` records the `(query, parameters)` pair it would send and nothing more.
  The slow-query timing and its `echo` are left out too, and so is the
  connection wiring.
- DbConnection.Magento2DbConnection.Execute cannot fail. The connection puts
  PDO in exception mode (`Model/Db/Magento2DbConnection.php:40`), so a failing
  statement throws and the later chunks are not sent. The statements
  actually sent are then a prefix of the modelled trace.
- The fetch helpers (`fetchSingleCell`, `fetchSingleColumn`, `fetchMap`,
  `fetchRow`, `fetchAllAssoc`, `fetchAllNonAssoc`,
  `Model/Db/Magento2DbConnection.php:217-276`) are left out. Each one runs one
  statement through `execute` and returns the rows the database sends back,
  in one of PDO's fetch shapes. Those rows are outside the model.
- `getLastInsertId` (`Model/Db/Magento2DbConnection.php:205-208`) is left out.
  It sends no statement; it asks PDO for the last insert id and casts it to
  an integer. That value comes from the database.
- `getFullTableName` (`Model/Db/Magento2DbConnection.php:284-287`) is left
  out. It reads nothing from the database; it asks Magento's resource
  connection for the table name with the installation's prefix, which is
  configuration outside the model.
- What MySQL does with the statements is not modelled: duplicate-key
  update, ignore, and the `max_allowed_packet` limit behind the chunk size.
- Parameters are modelled as strings. `execute` passes its values to PDO
  unchanged, and a PHP `null` among them is sent as SQL NULL; the model has
  no null parameter. No proved property looks at a parameter's contents:
  they count, chunk and carry parameters without reading them.
  Table, column and clause names are free text.
- DbConnection.Magento2DbConnection.ChunkedGroupExecute requires a value
  count that is a multiple of the column count, and at least one column.
  The PHP code does not check this. With a non-multiple, `getMarkGroups`
  computes a fractional row count that `str_repeat` truncates.
- DbConnection.GetMarks requires at least one value, as its doc comment
  demands. `str_repeat` with a count of -1 is an error in PHP. The code only
  calls it on non-empty chunks.
- Transliteration (iconv's `ASCII//TRANSLIT`) is the parameter
  `transliterate`. Its table is locale dependent and lives in the C library.
  iconv returning `false` on failure is not modelled. The lemmas that need
  to know something about it assume only `KeepsAscii` or `KeepsSlugs`.
- UrlKey.ToLower lowers ASCII `A`–`Z` only. That is what `strtolower` does
  under the C locale; locale-dependent single-byte case mapping is not
  modelled.
- Strings are sequences of characters, not bytes. PHP's byte-level view of
  multi-byte UTF-8 names is not modelled. Everything after the
  transliteration step sees only the transliteration's result.
- The order of PHP arrays used as dictionaries is lost. This affects
  `storeViews`, `stockItems`, the link maps and the unresolved attributes,
  which are Dafny maps here.
- `getType` (abstract), `getHasOptions` and `getRequiredOptions` (the
  constant `'0'`), the placeholder and price-type constants, and the getters
  that only return a field are left out. The fields are readable directly.
- Product.Product.SetLinkedProductIds and
  Product.Product.SetLinkedProductSkus each stand for the three per-kind PHP
  setters (related, up-sell, cross-sell). The kind is a parameter.
- Linked ids are stored as strings. `array_map('trim', …)` turns integer ids
  into their string form, and the model keeps the trimmed strings.
- The store view and stock item classes, `Image`, `TierPrice` and
  `CustomOption` are placeholders with identity only (`Image` also has its
  path). Their own files (`Api/Data/ProductStoreView.php`,
  `Api/Data/ProductStockItem.php`, `Model/Data/Image.php`, …) are not part
  of this model.
- The resolution stage, the importer, `ImportConfig` and the URL-key
  collision strategies are outside the modelled core.
