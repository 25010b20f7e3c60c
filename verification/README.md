# Persian parts shop: verified model

A Dafny model of the stateful and algebraic cores of the shop's server: the
migration runner, administrator login and sessions, the catalogue tables behind
the admin panel, Persian text and number handling, and the product lists and
searches. Run `dafny verify dfyconfig.toml`.

## Modules

| module | file | part of the program |
|---|---|---|
| JsText, Format, Slug | js_text, format, slug | string rewriting: `normalizePersian`, slugs, part-number keys, search text, printed money |
| Validate, Specs | validate, specs | field checks and the specification rows |
| Schema, CatalogForm, FormAcceptance | schema, catalog_form, form_acceptance | table rows with their CHECKs; the three forms, `changedFields`, the edit form sent back; which submissions are accepted |
| MigrationFiles, Migrate | migration_files, migrate | the sorted listing; `runMigrations` as a protocol between runners and one server, and the method itself under interference |
| AuthTables, Lockout, SessionHistory, AdminAuth | auth_tables, lockout, session_history, admin_auth | login, sessions, lockout, request gate: tables as values, the history specification, the service as classes |
| CategoryForest | category_forest | the bounded cycle check on any parent table |
| Catalogue, CatalogueStore, CatalogueRuns, CatalogueEffects, CatalogueForest | catalogue, catalogue_store, catalogue_runs, catalogue_effects, catalogue_forest | every admin request as a step, the handlers over mutable tables, what all runs keep, when each request is saved and what it leaves |
| SqlLike, ProductFilter, ProductSearch, Listing | sql_like, product_filter, product_search, listing | LIKE, WHERE clauses with placeholders and NULL, the two searches, ordering and paging |
| ProductExamples | product_examples | accepted forms at the edges: a name with a backslash, many specification rows |

Where the program changes state, the model has a class with the same fields and
methods proved equal to functions on table values (`Catalogue.Handled`,
`AuthTables.AfterEvent`, `Migrate.After`); the properties are proved of those
functions over all runs.

## Assumptions

- Admin requests run one after another. The program puts no transaction around
  check-then-write or rename-then-refresh, so those invariants hold between
  requests. Only the migration runner is proved under interleaving.
- Application and database share one clock that does not go back. The `touch`
  after a load succeeds or fails together with that load.
- SHA-256 and Argon2id distinguish all inputs; minted tokens and ids are fresh.
- Case mapping is per character and obeys `JsText.Casing.Lawful` (and, for concrete
  ASCII names, `Casing.Ascii`); the database's `upper` and ILIKE obey
  `ProductFilter.Collation.Lawful`. Text is a sequence of Dafny characters; lengths
  count them.
- A migration file does not contain its own COMMIT or ROLLBACK, and each runner
  has its own connection.
- PostgreSQL checks a written row in the order CHECK, unique index, foreign key,
  and an insert uses up an identity value even when it fails.
- A BIGINT or INTEGER column out of range is grouped with the CHECKs of its table.

## Where a promised property needs a condition

- An accepted new category is refused with `check_failed` exactly when it names as
  parent the identity value it is about to get (`CatalogueRuns.CheckFailedExactly`,
  `CatalogueForest.OwnIdentityAsParent`);
  a comment in `mapWriteError` takes that code to mean a hole in validation.
- The cycle check misses ancestors 100 or more links up. A run of 101 creations and
  one edit, all accepted, saves a cycle (`CatalogueForest.DeepChainCloses`).
- Saving an untouched edit form is a no-op up to 37 specification rows; beyond that
  the three blank rows exceed the limit of 40 (`CatalogForm.ResaveIsNoOp`). Accepted
  forms with 38 to 40 rows exist (`ProductExamples.ManySpecsResaved`).
- A name search needle with a backslash is read as a quoted LIKE pattern. A needle
  is found wherever it occurs exactly when its own pattern finds it
  (`SqlLike.FoundEverywhere`); for a needle without unquoted wildcards that means that
  no backslash is left over at its end and that what remains without the quoting
  backslashes occurs in it (`SqlLike.FindsItselfExactly`). A product named `a\b`,
  created by an accepted form, is missed by its own name
  (`ProductExamples.BackslashMissed`).
- Addresses longer than 64 characters are stored cut but looked up whole. The limit of
  an address holds in all runs exactly when no longer address that may log in is cut
  down to it (`Lockout.AddressBoundExactly`); addresses shorter than 64 characters are
  always safe (`Lockout.ShortAddressBound`).
- After a COMMIT whose acknowledgement is lost, the runner's done-set and applied list
  fall short of the recorded set by its current file, and only then
  (`Migrate.KnownExactly`, with a run in `Migrate.LostAcknowledgement`).

## Model

| member | source | states |
|---|---|---|
| Migrate.ExactlyOnce | src/db/migrate.js:46-73 | For any number of runners and any crashes, errors and lost acknowledgements: at most one live runner between lock and unlock, committed effects are exactly the recorded names, none twice, and the holder's done-set plus its applied list is the recorded set, short of its current file exactly while it rolls back after losing the acknowledgement of its COMMIT |
| Migrate.KnownExactly | src/db/migrate.js:57-68 | A live runner from its loop to its unlock knows the recorded set exactly if and only if no acknowledgement of its COMMIT was lost |
| Migrate.LostAcknowledgement | src/db/migrate.js:62-67 | The concrete run in which a file is recorded that its live runner does not count |
| MigrationFiles.ListingIsTheDirectory | src/db/migrate.js:31-34 | The listing ascends strictly by character code, holds exactly the `.sql` names, and depends only on which names the directory has |
| MigrationFiles.SmallerCodeListedFirst | src/db/migrate.js:31-34 | Of two `.sql` names in the directory that first differ in a character, the one with the smaller code has the smaller index |
| Migrate.InvRun | src/db/migrate.js:46-73 | The protocol invariant holds along every interleaving of steps |
| Migrate.MigrationOrder | src/db/migrate.js:31-34 | With one fixed listing, what is applied is at every moment a prefix of it; of two applied files the earlier one has the smaller code at the first difference, or is a prefix of the later |
| Migrate.AppliedInOrder | src/db/migrate.js:54-63 | The prefix property is kept from any state that has it, for every continuation |
| Migrate.NormalReturn | src/db/migrate.js:50-75 | On normal return applied and skipped split the listing by the done-set, in order, and everything listed is recorded |
| Migrate.SecondRunAppliesNothing | src/db/migrate.js:54-55 | After a normal return over the whole directory, any later run applies nothing and the effects are the directory in order |
| Migrate.RunMigrations | src/db/migrate.js:40-76 | The method, statement by statement under faults and other runners' steps: it waits only while another runner holds the lock, fails only after a fault, gives up the lock unless a statement broke, leaves the lock free when nothing goes wrong, and its result lists are those of the protocol |
| Migrate.ApplyFile | src/db/migrate.js:57-68 | One file: applied list and position advance together, or the run ends in the finally block after a fault |
| Migrate.Finally | src/db/migrate.js:70-73 | The finally block keeps the outcome decided before it; the lock is no longer this runner's unless the unlock statement itself broke |
| SessionHistory.SessionMatchesHistory | src/services/adminAuth.js:130-140 | After every run, a token loads exactly when it was minted by a login that nothing has ended since, is within its absolute hours, was never idle too long, and the administrator is active; the row is that login's |
| SessionHistory.LoginExactly | src/services/adminAuth.js:41-82 | A login succeeds as an administrator exactly when it is not locked out, its trimmed and lower-cased e-mail is that of an existing active account, and the password is that account's; it is refused as locked out exactly when identifier or address is blocked |
| SessionHistory.SessionHadPassword | src/services/adminAuth.js:73-140 | After every run, a session that loads goes back to a login of the run with that administrator's e-mail and password, which minted its token |
| SessionHistory.RunTracks | src/db/repositories/adminSessions.js:45-98 | The session table follows the event history, row by row |
| SessionHistory.GateMatchesHistory | src/middleware/adminAuth.js:74-138 | A write passes the middleware exactly when the history accepts the session and the submitted CSRF token is the one minted with it; a read needs the session only |
| SessionHistory.PurgeInvisible | src/db/repositories/adminSessions.js:101-108 | Two runs that differ only in purges give the same loads, gate answers and login answers |
| SessionHistory.PurgeDeletesExactly | src/db/repositories/adminSessions.js:101-108 | The clean-up deletes exactly the rows past their expiry or revoked more than seven days ago, and changes nothing else |
| AdminAuth.Service.Login | src/services/adminAuth.js:41-123 | The statements of login give the answer and leave the tables that SessionHistory.LoginExactly, Lockout.LoginRecordsItself and the run theorems are about |
| AdminAuth.Service.LoadSession | src/services/adminAuth.js:130-140 | loadSession answers by the validity conditions and touches only the row it found |
| AdminAuth.Service.Logout | src/services/adminAuth.js:143-150 | logout revokes that token's row if it was not revoked |
| AdminAuth.Service.PassGate | src/middleware/adminAuth.js:74-138 | The three middlewares in order give the specified gate answer |
| AdminAuth.Service.HandleAll | src/services/adminAuth.js:34-166 | Any sequence of requests, clock ticks and clean-ups leaves exactly the specified tables |
| AdminAuth.AdminSessions.RevokeAllForAdmin | src/db/repositories/adminSessions.js:92-98 | No row appears or goes; every row of the administrator ends revoked, at its earlier time or else now, and is otherwise as before; rows of others are equal |
| AdminAuth.LoginAttempts.IsBlockedNow | src/db/repositories/loginAttempts.js:28-40 | The one-pass counters decide the window limits |
| AdminAuth.LoginAttempts.PurgeOlderThan | src/db/repositories/loginAttempts.js:54-60 | Exactly the attempts older than the days go, the rest keep their order |
| Lockout.LockoutBound | src/services/adminAuth.js:44-82 | In every run, any span shorter than the window holds at most the configured number of recorded failures, for every identifier and for every address that no longer login address of the run is cut down to |
| Lockout.LockedExactly | src/db/repositories/loginAttempts.js:28-40 | After every run, a login is blocked exactly when at least the configured number of failed rows in the past window carry its identifier, or its address |
| Lockout.LoginRecordsItself | src/services/adminAuth.js:45-82 | A locked-out login leaves the attempts alone; any other adds one row at its end with the cut identifier and address, the time, and whether it succeeded |
| Lockout.ShortAddressBound | src/services/adminAuth.js:44-82 | For an address of fewer than 64 characters the bound holds in every run, whoever else logs in |
| Lockout.AddressBoundExactly | src/db/repositories/loginAttempts.js:13-40 | An address is bounded in all runs with logins from given addresses if and only if none of these is longer than 64 characters and cut down to it |
| Lockout.BlockedAttemptsLeaveNoTrace | src/services/adminAuth.js:45-51 | Leaving all locked-out logins out of any run gives the same tables and the same record, so they change no later answer |
| Lockout.PurgeInvisibleToLockout | src/db/repositories/loginAttempts.js:54-60 | Purging with days that cover the window never changes a blocking answer |
| Lockout.PurgeAttemptsDeletesExactly | src/db/repositories/loginAttempts.js:54-60 | The clean-up of attempts deletes exactly the rows older than the days, as often as they occur |
| Lockout.LongAddressEscapesLimit | src/db/repositories/loginAttempts.js:28-40 | Under any positive limits, one guess more than the limit from any longer address overruns the limit of the address it is stored under |
| CategoryForest.CycleCheckExact | src/db/repositories/categories.js:127-143 | On any table the walk visits at most 100 rows; it reports the parent and every ancestor fewer than 100 links up, which on chains of at most 100 rows is every ancestor |
| CategoryForest.SetParentForest | src/db/repositories/categories.js:117-126 | Setting a parent keeps a forest exactly when the parent is not below the row |
| CategoryForest.ChainBound | src/db/repositories/categories.js:131-139 | On a chain of n rows the check sees the root from the end exactly when n is at most 100 |
| CatalogueForest.ForestRun | src/controllers/adminCatalogController.js:401-433 | From an empty shop, every run keeps every upward walk ending at a root, unless an earlier state had a chain of more than 100 rows |
| CatalogueForest.UpdateForest | src/controllers/adminCatalogController.js:408-425 | A saved category edit keeps the forest exactly when the new parent is not below the row |
| CatalogueForest.CycleReported | src/controllers/adminCatalogController.js:410-416 | With chains of at most 100 rows the form reports a cycle exactly when there would be one |
| CatalogueForest.DeepChainCloses | src/db/repositories/categories.js:131-139 | A reachable run shows the bound is tight: the closing edit is saved, and the forest lost, exactly with more than 100 rows |
| CatalogueRuns.SoundRun | src/db/repositories/products.js:389-463 | After every request of every run: every CHECK, unique index and foreign key holds, `search_text` is built from the row and its brand's current name, and the part-number key from the part number |
| CatalogueRuns.RequestKeepsSound | src/controllers/adminCatalogController.js:186-585 | Each request, from any sound state, leaves a sound state |
| CatalogueRuns.BrandUpdateTouches | src/controllers/adminCatalogController.js:535-548 | A saved brand edit stores the accepted row, leaves each of its products indexed under the new name, and leaves every other brand, product and table equal |
| CatalogueRuns.CheckFailedExactly | migrations/002_catalog.sql:30-32 | `check_failed` is answered exactly to an accepted category creation whose parent is the next identity value |
| CatalogueForest.OwnIdentityAsParent | src/db/repositories/categories.js:145-157 | The concrete case: on an empty shop a category under "1" trips the CHECK, and sent again names a missing parent |
| CatalogueRuns.RestockPasses | src/controllers/adminCatalogController.js:262-276 | An accepted stock edit passes every CHECK of the product table |
| CatalogueRuns.UnsavedChangesNothing | src/controllers/adminCatalogController.js:186-245 | A request that is not saved leaves all three tables alone |
| CatalogueStore.Store.RefreshSearchTextForBrand | src/db/repositories/products.js:525-558 | The loop over parallel id and text arrays, rows in any order, rebuilds exactly that brand's rows and counts them |
| CatalogueStore.Store.WriteSearchTexts | src/db/repositories/products.js:548-557 | The unnested update writes each text to its own id and nothing else |
| CatalogueStore.Store.CategoryUpdate | src/controllers/adminCatalogController.js:401-433 | Parse, parent test, write: the specified reply and tables |
| CatalogueStore.Store.CreatesCycle | src/db/repositories/categories.js:127-143 | The recursive query, as a loop, answers the cycle check |
| CatalogueStore.Store.BrandUpdate | src/controllers/adminCatalogController.js:524-553 | Rename, then refresh only if the name is among the changed fields |
| CatalogueStore.Store.ProductUpdate | src/controllers/adminCatalogController.js:224-245 | The statements give the reply and tables that CatalogueEffects.ProductUpdated is about |
| CatalogueRuns.StockEditExactly | src/controllers/adminCatalogController.js:262-282 | A quick stock edit is saved exactly when both fields are accepted and the product exists; the quantity is set, the availability changes only when sent, nothing else does |
| CatalogueEffects.ProductCreated | src/controllers/adminCatalogController.js:186-202 | Saved exactly when the form has no error, slug and code are free, and category and brand exist; then the new identity holds every accepted value and every other row is equal |
| CatalogueEffects.ProductUpdated | src/controllers/adminCatalogController.js:224-245 | Saved exactly when the product exists and the same holds of all other rows; then it holds every accepted value and every other row is equal |
| CatalogueEffects.ProductSwitched | src/controllers/adminCatalogController.js:248-260 | The switch is saved exactly for an existing product; `isActive` becomes the wanted value and nothing else changes |
| CatalogueEffects.ProductDeleted | src/controllers/adminCatalogController.js:291-322 | Saved exactly for an existing product with the confirmation; that row goes and nothing else |
| CatalogueEffects.CategoryCreated | src/controllers/adminCatalogController.js:366-382 | Saved exactly when the form has no error, the slug is free and the parent exists; then the new identity holds the accepted row |
| CatalogueEffects.CategoryUpdated | src/controllers/adminCatalogController.js:401-433 | Saved exactly when the row exists, the form has no error, no other row has the slug, and the parent exists, is another row and closes no cycle the check sees; then the row is the accepted one |
| CatalogueEffects.CategorySwitched | src/controllers/adminCatalogController.js:435-443 | The switch, for categories |
| CatalogueEffects.CategoryDeleted | src/controllers/adminCatalogController.js:445-465 | Saved exactly for an existing category with the confirmation that has no subcategory and no product; that row goes and nothing else |
| CatalogueEffects.BrandCreated | src/controllers/adminCatalogController.js:496-512 | Saved exactly when the form has no error and the slug is free; then the new identity holds the accepted row |
| CatalogueEffects.BrandUpdated | src/controllers/adminCatalogController.js:524-553 | Saved exactly when the brand exists, the form has no error and no other brand has the slug; then it is the accepted row |
| CatalogueEffects.BrandSwitched | src/controllers/adminCatalogController.js:555-563 | The switch, for brands |
| CatalogueEffects.BrandDeleted | src/controllers/adminCatalogController.js:565-585 | Saved exactly for an existing brand with the confirmation that no product names; that row goes and nothing else |
| CatalogueStore.Store.InsertCategory | src/db/repositories/categories.js:145-157 | An insert uses up an identity value and fails with the first violated constraint |
| CatalogueStore.Store.HandleAll | src/controllers/adminCatalogController.js:31-595 | Any sequence of requests leaves exactly the specified tables |
| CatalogueStore.NameChanged | src/services/catalogAdminForm.js:166-174 | The changed-field report names the brand name exactly when it changed |
| CatalogForm.ParseProductForm | src/services/catalogAdminForm.js:35-90 | The accumulating parser files, per field, the first problem of the ordered checks and returns the cleaned values |
| CatalogForm.ParseCategoryForm | src/services/catalogAdminForm.js:94-112 | The same for categories; a missing sort order is 0 |
| CatalogForm.ParseBrandForm | src/services/catalogAdminForm.js:116-124 | The same for brands |
| FormAcceptance.ProductAccepted | src/services/catalogAdminForm.js:35-90 | A product form is accepted exactly when every field is within its limits, stated on the cleaned text and on the number it reads as, and the sale price is below the price |
| FormAcceptance.ProductRead | src/services/catalogAdminForm.js:35-90 | What each field of an accepted product form is read as; the specifications are, for each non-empty key, the value of its last row |
| FormAcceptance.CategoryAccepted | src/services/catalogAdminForm.js:94-112 | The same for categories: exactly when accepted, and the row read |
| FormAcceptance.BrandAccepted | src/services/catalogAdminForm.js:116-124 | The same for brands |
| CatalogForm.NoteAllFirst | src/services/validate.js:238-254 | A field is reported exactly when one of its checks failed, with the first such problem |
| CatalogForm.AcceptedProductMeetsChecks | migrations/002_catalog.sql:113-122 | No CHECK or column range of the product table rejects an accepted form |
| CatalogForm.AcceptedCategoryMeetsChecks | migrations/002_catalog.sql:30-32 | An accepted category form meets the CHECKs exactly when its parent is not its own id |
| CatalogForm.AcceptedBrandMeetsChecks | migrations/002_catalog.sql:46-46 | An accepted brand form meets the CHECK |
| CatalogForm.ResaveIsNoOp | src/controllers/adminCatalogController.js:111-125 | Sending the edit form of any accepted row back, line ends rewritten or not, gives no error exactly when it has at most 37 specifications, and then no changed field |
| ProductExamples.ManySpecsResaved | src/services/validate.js:183-208 | A form with n specifications, n up to 40, is accepted; its edit form sent back is accepted exactly when n is at most 37 |
| CatalogForm.ChangedFields | src/services/catalogAdminForm.js:166-174 | The loop reports exactly the mapped fields that are present and differ |
| CatalogForm.DifferingMember | src/services/catalogAdminForm.js:149-158 | Membership in the report, for every field |
| FormAcceptance.ChangesExactly | src/services/catalogAdminForm.js:142-174 | The report on a product edit names exactly the columns whose value changes |
| Specs.SpecsField | src/services/validate.js:183-208 | The loop with its early exits returns what reading the rows one by one gives |
| Specs.ReadRowsShape | src/services/validate.js:194-206 | The object read has distinct clean keys in JavaScript enumeration order, at most one a row |
| Specs.SpecsAccepted | src/services/validate.js:183-208 | The rows are accepted exactly when they are at most 40 and each is blank or has a key of at most 60 and a value of at most 300 characters |
| Specs.SpecsKept | src/services/validate.js:194-206 | The object holds a key, other than the empty one and `__proto__`, with the value of its last row, and nothing else |
| Specs.PutLookup | src/services/validate.js:205-205 | Assigning a key replaces its entry and no other |
| Specs.ResubmittedSpecs | src/services/validate.js:183-208 | The rows a form shows rebuild the object, order included, while they and its empty rows are at most 40; otherwise the rows are refused as too many |
| Validate.MoneyRoundTrip | src/services/validate.js:108-110 | A printed amount from 0 to the maximum is read back by `money` without error, and no other integer is |
| Validate.FormatTomanReread | src/services/format.js:33-38 | Every safe integer survives grouping, Persian digits and separator removal |
| Validate.IntegerExactly | src/services/validate.js:84-105 | A number field is accepted with a value exactly when its cleaned text is an optional minus sign and digits for a number within the limits, and as empty exactly when it is blank and may be |
| Validate.TypedNumber | src/services/validate.js:53-56 | A typed number is read character by character: whitespace, comma, thousands mark and underscore vanish, Persian and Arabic-Indic digits become their ASCII digit, everything else stays |
| Validate.CleanMultilineFixed | src/services/validate.js:40-47 | Cleaning leaves a text alone exactly when it is already clean |
| Validate.CleanMultilineSurvivesBrowser | src/services/validate.js:40-47 | A cleaned text sent back by a browser with CRLF line ends is cleaned to itself |
| Validate.CleanMultilineKeepsWords | src/services/validate.js:40-47 | Cleaning a text area keeps every word, in order and undivided |
| Validate.LineEndsUnified | src/services/validate.js:43-43 | CRLF, CR and LF each become one newline |
| Validate.UnifyConcat | src/services/validate.js:43-43 | Line ends are unified piece by piece, wherever the cut does not part a CRLF |
| Validate.StripBefore | src/services/validate.js:44-44 | Blanks before a line end go; the text before them and after it is cleaned as it would be alone |
| Validate.CapBetween | src/services/validate.js:45-45 | Between two lines up to two newlines stay and more become two; the text on both sides is kept |
| JsText.SqueezeIsItsWords | src/services/validate.js:34-37 | A single-line text is cleaned to its words joined by single blanks |
| Validate.SlugFieldAccepts | src/services/validate.js:145-156 | An accepted slug is a valid slug and a fixed point of the address-bar normalisation |
| Format.GroupedCommas | src/services/format.js:36-36 | Commas stand exactly before every complete group of three digits |
| Format.TomanIsPersian | src/services/format.js:33-38 | A printed amount has Persian digits and the Persian thousands mark only, and a minus sign only below zero |
| Format.NormalIsItsWords | src/services/format.js:60-70 | The normal form is the words of the folded text joined by single blanks |
| Format.SpellingsFolded | src/services/format.js:60-70 | Which characters are identified: the letters yeh, kaf and teh marbuta, diacritics, tatweel, the zero-width non-joiner and both digit scripts, each by code point; every other character stays |
| Format.NormalizeIdempotent | src/services/format.js:60-70 | Normalising again changes nothing |
| Format.NormalizeKeepsInfix | src/services/format.js:60-70 | A piece of a text normalises to a piece of the normalised text |
| Slug.SlugifyIdempotent | src/services/slug.js:26-32 | Slugging a slug changes nothing, for every input |
| Slug.SlugIsItsWords | src/services/slug.js:26-32 | A slug is the words of the lower-cased normal form, joined by single dashes |
| Slug.SlugifyFixed | src/services/slug.js:26-32 | The fixed points are exactly the well-shaped slugs (and the empty string) |
| Slug.SlugParamReachesRow | src/services/slug.js:41-54 | Every spelling that normalises like a stored slug, and fits the length guard, reaches it |
| Slug.OemKeyIsPerCharacter | src/services/slug.js:62-68 | Whitespace collapsing and trimming never affect a part-number key |
| Slug.OemKeyConcat | src/services/slug.js:62-68 | The key of a concatenation is the concatenation of the keys |
| Slug.OemKeyOfAscii | src/services/slug.js:62-68 | On ASCII a key keeps digits and letters, upper-cased, and drops everything else |
| Slug.PieceOccursInSearchText | src/services/slug.js:75-82 | The needle made from a piece of the name, code, part number, its key, the brand name or the short description occurs in the search text |
| Slug.SearchTextIsItsWords | src/services/slug.js:75-82 | The search text is the words, lower-cased and normalised, of name, code, part number, part-number key, brand name and short description, in this order |
| SqlLike.InfixMatches | src/db/repositories/products.js:312-336 | Text containing a needle without a backslash matches the needle's pattern, wildcards in it or not |
| SqlLike.QuotedContains | src/db/repositories/products.js:312-336 | A pattern without unquoted wildcards means containing its unquoted characters, both ways |
| SqlLike.PlainContains | src/db/repositories/products.js:312-336 | Without wildcards the pattern means containment, both ways |
| SqlLike.FoundEverywhere | src/db/repositories/products.js:312-336 | A needle is found in every text containing it exactly when its pattern finds the needle itself |
| SqlLike.FindsItselfExactly | src/db/repositories/products.js:312-336 | The condition read off the needle: no backslash left over, and the unquoted needle occurs in the needle |
| ProductFilter.BuildWhere | src/db/repositories/products.js:125-149 | For every combination of filters and any parameters already pushed, the clauses select exactly the rows of the plain filter, NULL brands included, and every placeholder points at its own value |
| ProductFilter.BuildAdminWhere | src/db/repositories/products.js:308-345 | The same for the admin filters and search box, with an absent part-number key bound as NULL |
| ProductFilter.TermClauseMeans | src/db/repositories/products.js:326-342 | The search-box clause is true exactly for a text match or a key prefix of part number or code |
| ProductFilter.EvalStable | src/db/repositories/products.js:168-174 | Pushing further parameters does not change a clause whose placeholders are bound |
| ProductSearch.PartNumberFound | src/db/repositories/products.js:238-261 | Any first part of a stored part number with four key characters, however typed, takes the part-number path and finds the visible product |
| ProductSearch.SearchExactly | src/db/repositories/products.js:229-287 | A term that is not blank goes the part-number way exactly when its key has at least 4 characters and some visible row matches it, and finds exactly those rows; otherwise it finds exactly the visible rows whose search text matches or resembles the needle |
| ProductSearch.PartHitMeans | src/db/repositories/products.js:240-245 | The part-number path finds exactly the visible rows by key prefix or exact code |
| ProductSearch.SeparatorBlind | src/services/slug.js:62-68 | Inserting text changes a key exactly when that text has a key of its own |
| ProductSearch.DigitScriptBlind | src/services/slug.js:62-68 | Texts that differ only in digit script, ASCII, Persian and Arabic-Indic mixed, have the same key |
| ProductSearch.PlainPieceFindsItself | src/services/slug.js:75-82 | A piece without a backslash makes a needle that finds itself, even with wildcards in it |
| ProductSearch.AdminListFinds | src/db/repositories/products.js:326-342 | Any piece of any indexed field whose needle finds itself finds its product in the admin list |
| ProductSearch.SearchFinds | src/db/repositories/products.js:265-270 | The public search finds it too, by name, whenever the piece is not blank and its key has fewer than 4 characters or matches no part number or code |
| ProductSearch.EveryProductCanBeFound | src/db/repositories/products.js:506-524 | The same after every run of catalogue requests, under the brand's current name |
| ProductSearch.EveryPartNumberCanBeFound | src/db/repositories/products.js:237-261 | After every run of catalogue requests, a visible product is found by any first part of its part number with four key characters |
| ProductExamples.BackslashMissed | src/db/repositories/products.js:333-342 | Under every lawful casing and collation, a product named `a\b` that an accepted form created is missed by its own name in the admin list, and in the public search unless trigram similarity happens to include it |
| Listing.StrictTotalOrder | src/db/repositories/products.js:19-24 | Every sort key with the id tie-break is a strict total order, whatever the collation of names |
| Listing.OneAnswer | src/db/repositories/products.js:170-175 | The ordered result of a query is unique |
| Listing.PagesPartition | src/db/repositories/products.js:168-183 | Pages cut from separate runs of the query, concatenated up to the page count, are the ordered result; exactly those pages have rows |
| Listing.ListShowsEverything | src/db/repositories/products.js:155-184 | Requesting pages 1 to pageCount shows every wanted row once, in order, and later pages are empty |
| Listing.List | src/db/repositories/products.js:155-184 | Clamping, compiled filter, count and page query with LIMIT and OFFSET as last parameters give the page that Listing.ItemsInOrder, Listing.PublicListShows and Listing.TotalsAgree are about |
| Listing.ItemsInOrder | src/db/repositories/products.js:19-24 | On a page, prices ascend under "price-asc" and descend under "price-desc" (the sale price where there is one), names ascend under "name", creation times descend otherwise; equal keys come in descending id |
| Listing.PublicListShows | src/db/repositories/products.js:125-184 | The pages of the public list show exactly the active products of active categories that meet every filter given |
| Listing.AdminListShows | src/db/repositories/products.js:308-377 | The pages of the admin list show exactly the products that meet every admin filter given |
| Listing.TotalsAgree | src/db/repositories/products.js:163-183 | The total counts the wanted rows, and the page count is the least that holds them all, at least 1 |
| Listing.AdminList | src/db/repositories/products.js:348-377 | The same for the admin list |
| Listing.ClampPerPage | src/db/repositories/products.js:57-61 | Whole part up to 60, default 12 for anything below 1 or not finite |
| Listing.ClampPage | src/db/repositories/products.js:63-67 | Whole part, page 1 for anything below 1 or not finite |
| Listing.PageWindow | src/services/pagination.js:13-19 | The consecutive existing pages at most span away; it holds the current page exactly when that exists |
| Listing.BuildPagination | src/services/pagination.js:27-47 | No bar for one page; otherwise the window with the current page marked and the neighbours that exist |

## Left out

- Lockout.LockoutBound: an address that longer login addresses are cut down to has no bound; see Lockout.AddressBoundExactly.
- Lockout.AddressBoundExactly: a limit of more than 254 decimal digits is left aside, since there are not enough identifiers to overrun it.
- Validate.FormatTomanReread: amounts are integers, so `Math.round` and non-numeric input of `formatToman` are not modelled.
- CatalogForm.ResaveIsNoOp: JSONB reorders object keys; any order that JavaScript enumerates is allowed, and the store keeps specifications as written.
- Listing.ListShowsEverything: page numbers and offsets are exact integers; doubles past 2^53 and offsets past BIGINT are not modelled.
- ProductSearch.SearchFinds: the trigram operator is an arbitrary predicate, and the order of `search` results, which has no id tie-break, is not modelled.
- Migrate.RunMigrations: a runner whose lock request is never granted is reported as blocked rather than waiting for ever.
- Timing equalisation (`verifyDummy`, `timingSafeEqual`), Argon2id and SHA-256 internals, random bytes.
- Express wiring, cookies, templates, redirects, flash texts, audit rows, in-memory rate limiters.
- Which of two duplicate keys PostgreSQL names first, and ids or NUL characters that PostgreSQL cannot parse.
- Final-sigma lower-casing, characters outside the basic plane, and collation rules (names have an arbitrary total preorder).
- Sort keys inherited from `Object.prototype`; the callers pass keys from a fixed list.
- Product images, vehicles' own tables (a product carries its set of vehicle ids), `sharp`, Jalali dates, query strings and links.
- One-branch helpers: `stockWarning`, `normalizeMobile`, discount badge, the public read queries by slug.
