# Trac cache, reports, attachments, notification, admin panels and message extraction in Dafny

This project models the core of Trac's generation-based cache, plus several rule-heavy pieces of the
ticket report, attachment, ticket notification, web administration and message-extraction code.

**The cache (`trac/cache.py`).**
- `key_to_id` is the 31-bit string hash. It turns a property key such as `trac.wiki.api.WikiSystem.pages`
  into the id of a row of the `cache` table. It also records the key in the process-wide `_id_to_key`
  dictionary, modelled as `CacheKeys.KeyRegistry`.
- The `@cached` descriptors derive that key from the class that defines the attribute:
  - a singleton (component) descriptor remembers the id;
  - a per-instance descriptor replaces the instance's key attribute by the id.
- `CacheManager` keeps a process cache of `(data, generation)` entries and, per request thread, a
  snapshot of every generation plus a copy of the process cache.
- The shared `cache` table holds one generation counter per id. A missing row reads as -1.
  `invalidate` bumps an existing row by one or inserts the row at 0.

Each cache operation is modelled twice:
1. as a function on values (`GetStep`, `InvalidateStep`, `Bump`, `Reset`), about which the properties are
   proved;
2. as a method of the class `CacheManager`, which updates its fields and the shared `GenerationStore`
   object and is proved to agree with the function.

Two managers sharing one store stand for two processes. A ghost counter on the manager counts retriever
calls, so the contracts can say when the retriever runs.

The properties proved for the cache are:
- a thread sees its own invalidation;
- an entry whose generation matches is served without calling the retriever;
- a failing retriever caches nothing;
- invalidation makes generations grow;
- no generation a manager holds is ever ahead of the table.

A thread that already holds a snapshot keeps answering from it even after another process invalidated
the id (`SnapshotHidesOtherProcesses`). Fresh data is guaranteed only from the next request on, that is
after `reset_metadata` (`OtherProcessInvalidation`). That is what the code does. It is weaker than
"another process sees the change on its next `get`".

When a row is missing, `invalidate` inserts it at generation 0 and does not bump it again. The
observable change is still strict, from -1 ("no row") to 0.

**The other modules.**
- Reports, `trac/ticket/report.py`:
  - `cell_value`;
  - the `$NAME` to `%s` rewriting of a report's SQL by `sql_sub_vars` (outside and inside quoted
    literals, with the list of values, the missing arguments, and the pruning of `args`);
  - `get_var_args`;
  - the column-name conventions that group and hide report headers;
  - the redirect of a report that holds a saved custom query.
- Attachments, `trac/attachment.py`:
  - the `attachment` table as a map;
  - version numbering and `prev_next`;
  - archive names and storage paths;
  - the checks and table effects of `delete`, `insert` and `reparent`;
  - the upload validation of `_do_save`;
  - the legacy permission policy;
  - the `realm:id` argument of the admin commands.
- Ticket notification, `trac/ticket/notification.py`:
  - display widths, with a memo and an abstract East Asian width classifier;
  - the column widths and width negotiation of the properties table;
  - Cc parsing and diffing;
  - the updater filter of `get_recipients`.
- Web administration, `trac/admin/web_ui.py`:
  - panel collection and selection;
  - `_find_base_path`;
  - the component comparator and the plugin list order;
  - component enablement updates;
  - plugin upload name checks.
- Message extraction, `trac/dist.py`:
  - the token state machine of `extract_python`, over tokens whose string literals are already decoded;
  - `pluralexpr`;
  - the grouping of a compiled catalog by `write_js`.

`strings.dfy` models the Python string and `posixpath` behaviour these rely on. `wrappers.dfy` gives
`Option` (Python's None) and `Result` (a raised exception).

## Model

| member | source | states |
|---|---|---|
| CacheKeys.KeyHashEmpty | trac/cache.py:29-32 | The empty key hashes to 0. |
| CacheKeys.KeyHashBelow | trac/cache.py:29-32 | Every key shorter than 2^31 characters hashes below 2^31. |
| CacheKeys.RoundBelow | trac/cache.py:31 | One round (multiply, mask to 31 bits, xor a code point) always lands below 2^31. |
| CacheKeys.KeyHashSingle | trac/cache.py:29-32 | A one-character key is seeded with its code times 128, runs one round on that character, then has length 1 xored in. So the first character is used twice. |
| CacheKeys.KeyHashOfA | trac/cache.py:29-32 | The key "a" hashes to 1678619104. |
| CacheKeys.KeyRegistry.constructor | trac/cache.py:23 | The `_id_to_key` record starts empty. |
| CacheKeys.KeyRegistry.KeyFor | trac/cache.py:235 | The recorded key of an id, or `<unknown>` when the id was never hashed. |
| CacheKeys.KeyRegistry.KeyToId | trac/cache.py:25-34 | The loop computes the 31-bit hash of the key and records the key under that id; other ids keep their keys. |
| CacheManagement.Generations | trac/cache.py:175-176 | The snapshot maps exactly the ids with a row to their generations. |
| CacheManagement.GetStep | trac/cache.py:167-216 | One `get`. The snapshot is taken exactly when the request has none. Other ids keep their process entries. A call to the retriever returns its result, and a retrieved value is cached under the table's generation. Without a call the process cache is unchanged and a value is returned. |
| CacheManagement.Bump | trac/cache.py:231-235 | An existing row goes up by one. A missing row is inserted at 0 with the recorded key. No other row changes. |
| CacheManagement.InvalidateStep | trac/cache.py:238-244 | The id leaves the process cache and the thread's copy, if present. Nothing else changes. |
| CacheManagement.Reset | trac/cache.py:163-165 | The snapshot and the thread's copy are both cleared; the process cache stays. |
| CacheManagement.LocalHit | trac/cache.py:182-185 | A thread copy whose generation matches the snapshot is returned without calling the retriever, and nothing changes. |
| CacheManagement.ProcessHit | trac/cache.py:190-204 | A process entry as new as the table, found by the re-query after the snapshot, is returned without calling the retriever and is copied into the thread's copy. |
| CacheManagement.FirstGetOfRequest | trac/cache.py:170-195 | On the first `get` of a request, a process entry as new as the table is returned without calling the retriever. |
| CacheManagement.CalledExactlyWhenStale | trac/cache.py:179-216 | The retriever is called if and only if neither the thread copy matches the snapshot nor the process entry matches the snapshot or the table. |
| CacheManagement.RetrieverErrorCachesNothing | trac/cache.py:210-216 | A failing retriever leaves both caches as they were. Only the request's snapshot is taken. |
| CacheManagement.RepeatedGet | trac/cache.py:179-216 | A second `get` of the same id, with the table unchanged, returns the first one's value without calling the retriever. |
| CacheManagement.InvalidateTwice | trac/cache.py:231-235 | Invalidating a never-cached id twice gives generation 0, then 1. Both calls succeed. |
| CacheManagement.BumpGrows | trac/cache.py:231-235 | Invalidation never lowers a generation and never removes a row. The bumped id's observed generation strictly increases. |
| CacheManagement.BoundedWhenTableGrows | trac/cache.py:231-235 | If the table only grows (other processes invalidating), a manager's generations stay at or below it. |
| CacheManagement.GetKeepsBounded | trac/cache.py:175-216 | `get` keeps every generation the manager holds at or below the table. |
| CacheManagement.InvalidateKeepsBounded | trac/cache.py:231-244 | `invalidate` keeps every generation the manager holds at or below the new table. |
| CacheManagement.ResetKeepsBounded | trac/cache.py:163-165 | `reset_metadata` keeps the manager at or below the table. |
| CacheManagement.ReadYourOwnInvalidation | trac/cache.py:179-244 | The `get` right after this thread's `invalidate` calls the retriever and caches its value under the new generation. |
| CacheManagement.OtherProcessInvalidation | trac/cache.py:172-216 | After another process moved the table past every generation this manager holds, the first `get` of the next request calls the retriever. |
| CacheManagement.SnapshotHidesOtherProcesses | trac/cache.py:172-185 | Within one request, an entry that matches the snapshot is still served after another process invalidated the id. |
| CacheManagement.CacheManager.constructor | trac/cache.py:156-159 | Empty process cache, no snapshot, no thread copy, attached to the shared store. |
| CacheManagement.CacheManager.ResetMetadata | trac/cache.py:163-165 | The new state is `Reset` of the old one; the store is untouched. |
| CacheManagement.CacheManager.Get | trac/cache.py:167-216 | The value and new state are those of `GetStep`. The retriever counter goes up exactly when `GetStep` calls it. |
| CacheManagement.CacheManager.Invalidate | trac/cache.py:218-244 | The store becomes `Bump` of the old store; the state becomes `InvalidateStep` of the old one. |
| CacheManagement.RefreshAfterOtherProcess | trac/cache.py:163-244 | Two managers on one store: after one invalidates an id, the other's next request calls the retriever. |
| CachedAttributes.DefiningClass | trac/cache.py:44-50 | The first class of the method resolution order that holds this very descriptor under the attribute name, or the lookup class when none does. |
| CachedAttributes.MakeKey | trac/cache.py:44-50 | The loop over the method resolution order gives `module.class.attr` of the defining class. |
| CachedAttributes.SkipNonHolders | trac/cache.py:46-49 | Classes before the holder in the method resolution order do not change the key. |
| CachedAttributes.InheritedKey | trac/cache.py:44-50 | A subclass that inherits the attribute gets the defining class's key, so all subclasses share one entry. |
| CachedAttributes.SingletonProperty.constructor | trac/cache.py:40-42 | A new descriptor has no id yet. |
| CachedAttributes.SingletonProperty.Id | trac/cache.py:59-62 | The id is the remembered one; on first use it is the hash of the key and is then remembered. |
| CachedAttributes.SingletonProperty.Get | trac/cache.py:56-63 | Manager `get` under the descriptor's id. On first use the id is the key's hash, and the registry records the key under it; later the registry is unchanged. |
| CachedAttributes.SingletonProperty.Delete | trac/cache.py:65-70 | Manager `invalidate` under the same id that `get` uses, with the same registry update on first use, so a new row gets the attribute's key. |
| CachedAttributes.InstanceIdStable | trac/cache.py:83-86 | Once the key attribute has been replaced by its id, later lookups use the id unchanged. |
| CachedAttributes.InstanceKeysDiffer | trac/cache.py:85 | Different instance strings under one attribute key give different keys. |
| CachedAttributes.InstanceProperty.constructor | trac/cache.py:76-78 | The descriptor keeps its key attribute name. |
| CachedAttributes.InstanceProperty.Id | trac/cache.py:83-86 | A string key attribute becomes the hash of `key + ':' + value` and is replaced on the instance. A number is used unchanged. A missing attribute fails. |
| CachedAttributes.InstanceProperty.Get | trac/cache.py:80-87 | Manager `get` under the instance's id, with the key attribute replaced by the id and, for a string key, `key:value` recorded under it. A missing key attribute fails and changes nothing. |
| CachedAttributes.InstanceProperty.Delete | trac/cache.py:89-94 | Manager `invalidate` under the instance's id, with the same write-back and registry update as `get`. A missing key attribute fails and changes nothing. |
| CachedAttributes.Cached | trac/cache.py:144-148 | A callable gives a singleton descriptor; anything else gives a decorator keyed by that argument. |
| CachedAttributes.ApplyDecorator | trac/cache.py:146-147 | The decorator gives a per-instance descriptor with the key attribute given to `cached`. |
| Report.CellValue | trac/ticket/report.py:46-51 | None and false values give "", the integer 0 gives "0", and everything else its string form. |
| Report.LiteralEnd | trac/ticket/report.py:694 | The quoted-literal pattern opened at a quote either fails to match (-1) or ends right after a closing quote, at least two characters on. |
| Report.SplitLiteralsFrom | trac/ticket/report.py:694 | The split alternates text and literal pieces. Each literal starts and ends with a quote. |
| Report.SplitLiteralsFromConcat | trac/ticket/report.py:694 | The pieces of the split concatenate back to the text. |
| Report.SplitLiteralsConcat | trac/ticket/report.py:694 | Splitting a report's SQL into literals and other text loses nothing. |
| Report.NameEnd | trac/ticket/report.py:671 | The end of the longest run of `[A-Z0-9_]` characters. |
| Report.VarSplitFrom | trac/ticket/report.py:671 | `var_re.split`: one more text than names, and each name is `[A-Z_][A-Z0-9_]*`. |
| Report.VarSplit | trac/ticket/report.py:671 | Splitting at the `$NAME` variables gives one more text than names. |
| Report.VarSplitFromWeave | trac/ticket/report.py:671 | Interleaving the texts with `$` plus the names rebuilds the text. |
| Report.VarSplitWeave | trac/ticket/report.py:671 | Splitting at the variables loses nothing. |
| Report.VarSplitFromMaximal | trac/ticket/report.py:671 | No text between the variables holds a variable. |
| Report.VarSplitMaximal | trac/ticket/report.py:671 | The split finds every variable. |
| Report.NoVarNoNames | trac/ticket/report.py:680-682 | A text without a variable splits into itself alone. |
| Report.LiteralParts | trac/ticket/report.py:683-685 | The quoted texts with a `%s` between each pair, one `%s` per variable. |
| Report.PieceNames | trac/ticket/report.py:674-687 | Every variable name a piece references is a valid name. |
| Report.LiteralWithoutVariables | trac/ticket/report.py:679-682 | A quoted literal without variables is copied unchanged and references nothing. |
| Report.PlainPiece | trac/ticket/report.py:674-676 | Outside literals each variable becomes `%s`, and the names are referenced in order. |
| Report.ArgValues | trac/ticket/report.py:662-669 | One value per reference, in order: the argument, or "" when it is missing. |
| Report.MissingExactlyOnce | trac/ticket/report.py:662-669 | `missing_args` lists exactly the referenced names absent from `args`, without repeats, in order of first reference. |
| Report.AddValue | trac/ticket/report.py:662-669 | `add_value` extends the names, values, missing names and arguments consistently with one more reference. |
| Report.AddValues | trac/ticket/report.py:686-687 | `add_value` for each parameter of a literal, in order. |
| Report.RemainingArgs | trac/ticket/report.py:700-702 | After the deletion loop, the arguments are exactly the referenced names, with "" for the missing ones. |
| Report.SqlSubVars | trac/ticket/report.py:653-703 | Returns the SQL with every piece rewritten, the values of all references in order, and the missing names once each. Also returns `args` restricted to the referenced names, with missing ones added as "". |
| Report.RewritePieces | trac/ticket/report.py:694-698 | The loop over the pieces writes each one rewritten and adds its names in order. |
| Report.GetVarArgs | trac/ticket/report.py:639-651 | Exactly the upper-case request arguments with their values, plus `USER` set to the authenticated name when it is not given. |
| Report.MakeHeader | trac/ticket/report.py:419-468 | The title is the field label, or else the name stripped of `_` and capitalized. `__x__` and `_x` columns are hidden. |
| Report.AddHeader | trac/ticket/report.py:459-471 | Placing one header leaves at least one group. |
| Report.Grouping | trac/ticket/report.py:418-471 | A successful grouping has at least one group. |
| Report.GroupingFailsOnEmptyName | trac/ticket/report.py:463-469 | The grouping fails if and only if some column name is empty, since `col[0]` is out of range. |
| Report.GroupingErrorPersists | trac/ticket/report.py:418-471 | Once some prefix of the columns fails, the whole grouping fails. |
| Report.FlattenAddHeader | trac/ticket/report.py:459-471 | Placing a header adds it at the end of the flattened groups. |
| Report.GroupingKeepsOrder | trac/ticket/report.py:418-471 | Reading the groups one after another gives every column's header once, in column order. |
| Report.AddHeaderWellGrouped | trac/ticket/report.py:459-471 | Placing a header keeps the shape the conventions promise. |
| Report.GroupingWellGrouped | trac/ticket/report.py:459-471 | In every grouping, `_x_` is alone in its group, `x_` ends its group, and the open last group holds neither. |
| Report.GroupingStep | trac/ticket/report.py:419-471 | One more column extends a successful grouping by its header. |
| Report.PlaceHeader | trac/ticket/report.py:420-471 | One loop iteration gives the groups of one more column. |
| Report.GroupHeaders | trac/ticket/report.py:418-471 | The loop gives the grouping of the columns, or the empty-name error. |
| Report.RouteQuery | trac/ticket/report.py:309-327 | `query:` without `?` is a query expression. Text that starts with neither `?` nor `query:` is an ordinary report. |
| Report.QueryPrefixes | trac/ticket/report.py:310-311 | `query:?` starts with `query:`, and neither starts with `?`. |
| Report.RouteUrlQuery | trac/ticket/report.py:312-321 | A `?` query string is either redirected to the query module or sent to the edit page. |
| Report.UrlQueryRewrite | trac/ticket/report.py:310-321 | Without `report=`, this report's number is appended, after `&` unless the query ends in `?`. With one, the query passes if and only if it names this report, and otherwise goes to the edit page. |
| Report.QueryPrefixDropped | trac/ticket/report.py:310-311 | The `query:?` form is handled like the `?` form with the prefix dropped. |
| Report.ExactImpliesAsWritten | trac/ticket/report.py:313-314 | A query that the exact check accepts is also accepted, with the same result, by the substring check as written. |
| Report.OneLineQueryText | trac/ticket/report.py:309 | A one-line text without surrounding white space is its own joined query text. |
| Report.AsWrittenAcceptsOtherReport | trac/ticket/report.py:313-314 | Report 1 with `?report=12` passes the substring check as written but not the exact check. |
| Report.AsWrittenAcceptsLongerName | trac/ticket/report.py:313-314 | Report 1 with `?xreport=1` passes the substring check as written but not the argument check. |
| Attachments.Versions | trac/attachment.py:457-461 | The stored versions of one file of one parent. |
| Attachments.MaxVersion | trac/attachment.py:457-461 | `MAX(version)`: None without rows, otherwise a stored version at least as large as all the others. |
| Attachments.NextVersionIsNew | trac/attachment.py:456-466 | The next version is 1 for a file without rows and the largest stored version plus 1 otherwise, so it is above every stored version. |
| Attachments.NextVersionPositive | trac/attachment.py:456-466 | When every stored version is at least 1, the next version is at least 1, and at least 2 once the file has a row. |
| Attachments.WithoutFile | trac/attachment.py:256-260 | Exactly the rows of the file are gone. |
| Attachments.Archive | trac/attachment.py:425-431 | Only the status of that one row becomes `archived`. |
| Attachments.Reparented | trac/attachment.py:325-329 | Every version of the file moves to the new parent, and other rows stay. It fails when a moved key is already taken. |
| Attachments.FormatVersion | trac/attachment.py:210 | For a non-negative version, at least five characters, all digits, ending in the version's decimal form. |
| Attachments.FormatVersionExamples | trac/attachment.py:210 | Version 0 gives `00000` and version 3 gives `00003`. |
| Attachments.ArchiveFilename | trac/attachment.py:207-210 | The quoted `'%0.5d_' % version + filename`, or an error when the version is unknown. |
| Attachments.Attachment.constructor | trac/attachment.py:134-142 | A new attachment has no file name and version 0, and does not exist. |
| Attachments.Attachment.FromDatabase | trac/attachment.py:165-174 | Every field holds the row's value, with NULL size and time read as 0. |
| Attachments.Attachment.Fetch | trac/attachment.py:176-205 | Loads every field of the given version's row, or the latest one's. Fails if and only if no such row exists; then only the file name is set. |
| Attachments.Attachment.GetPath | trac/attachment.py:212-228 | Uses the archive directory if and only if the status is `archived`. Adds the realm and quoted id only when both are given, then the quoted (archived: version-prefixed) file name. |
| Attachments.Attachment.PathInsideDirectory | trac/attachment.py:365-367 | When the attachment's own path can be formed, the path of `_get_path()` is one of its prefixes. |
| Attachments.Attachment.Delete | trac/attachment.py:239-299 | Fails without a file name, or when a different version is given, and then changes nothing. Without a version, all rows of the file go and the attachment becomes deleted, keeping its name and details. With one, only that row goes and every field of the latest remaining row is loaded, or the attachment becomes deleted. |
| Attachments.Attachment.Insert | trac/attachment.py:354-445 | Fails if and only if it archives without replacing an existing attachment, or replaces an existing one by another name. Otherwise it archives when asked and stores a row with the attachment's own size, time, description, author and address under the next version. Description, author, address and status never change. |
| Attachments.Attachment.Reparent | trac/attachment.py:312-346 | Fails without a file name or when the target exists, and then changes nothing. Otherwise every version moves, the parent changes, and the version becomes unknown. The name, status and details always stay. |
| Attachments.SecondVersion | trac/attachment.py:456-466 | A file without rows gets version 1, and after that row is stored the next version is 2. |
| Attachments.IndexOf | trac/attachment.py:507 | The first position of the version, or none. |
| Attachments.PrevNext | trac/attachment.py:490-515 | Fails if and only if the version is not listed. With at most one version the result is (None, None). |
| Attachments.PrevNextNeighbours | trac/attachment.py:506-515 | On ascending versions, the result is the nearest listed version below and the nearest above. |
| Attachments.PrevNextSingle | trac/attachment.py:508-509 | A single version has no neighbours. |
| Attachments.ValidateUpload | trac/attachment.py:884-908 | Accepts if and only if a name is given, the size is not 0, the size is within `max_size` unless it is negative, and the base name of the name's Unicode normal form C (`nfc`, a parameter) is not empty once `\` and `:` read as `/`. The result is that base name, with the matching error otherwise. |
| Attachments.NoLimitWhenNegative | trac/attachment.py:896-899 | A negative `max_size` accepts any size. |
| Attachments.PlainNameKept | trac/attachment.py:901-908 | A name whose normal form C has no `/`, `\` or `:` is stored as that normal form, with nothing cut off. |
| Attachments.PermMap | trac/attachment.py:1196-1203 | A map exists if and only if the action is ATTACHMENT_CREATE, ATTACHMENT_VIEW or ATTACHMENT_DELETE. |
| Attachments.FirstDecision | trac/attachment.py:1218-1222 | The first decision that is not None, or None. |
| Attachments.CheckPermission | trac/attachment.py:1205-1222 | None for other actions and non-attachment resources. For mapped parent realms, whether the legacy action is granted on the parent. Otherwise the first delegate decision. |
| Attachments.TicketAttachmentView | trac/attachment.py:1205-1216 | Viewing a ticket attachment is exactly having TICKET_VIEW, whatever the delegates say. |
| Attachments.SplitResource | trac/attachment.py:1262-1267 | Fails if and only if there is no `:`. Otherwise the realm has no `:` and `realm:id` is the argument. |
| Attachments.SplitResourceJoin | trac/attachment.py:1263 | `realm:id` with no `:` in the realm splits back into the realm and the id. |
| Notification.AmbiguousWidth | trac/ticket/notification.py:397 | 2 if and only if the setting is `double`, else 1. |
| Notification.TextWidth | trac/ticket/notification.py:403-411 | With an ambiguous width of 1 or 2, the width lies between the length and twice the length. |
| Notification.TextWidthConcat | trac/ticket/notification.py:403-411 | The width of two texts put together is the sum of their widths. |
| Notification.NarrowTextWidth | trac/ticket/notification.py:403-411 | A text of narrow, halfwidth and neutral characters is as wide as it is long. |
| Notification.TicketNotifyEmail.constructor | trac/ticket/notification.py:80-86 | Keeps the setting and starts with an empty memo. |
| Notification.TicketNotifyEmail.GetTextWidth | trac/ticket/notification.py:396-413 | Returns the character-by-character width. A known text leaves the memo unchanged; a new one is added with its width. Every memo entry is its text's width. |
| Notification.TicketNotifyEmail.ColumnWidths | trac/ticket/notification.py:204-224 | The loop computes the four widths of the counted cells. |
| Notification.TicketNotifyEmail.PropsLayout | trac/ticket/notification.py:204-239 | The column widths, the negotiated left and right widths, and the separator line. |
| Notification.Listed | trac/ticket/notification.py:206-207 | Exactly the fields not named summary, cc, time or changetime. |
| Notification.CountedSnoc | trac/ticket/notification.py:210-220 | A field adds no cell when it is a textarea, not set, or has a newline. Otherwise it adds its caption and its (owner/reporter: obfuscated) value. |
| Notification.Widths | trac/ticket/notification.py:208-224 | Four widths, one per caption and value column. |
| Notification.WidensColumn | trac/ticket/notification.py:221-224 | The two updates of one iteration widen exactly the entries of column `i % 2`. |
| Notification.WidthsBound | trac/ticket/notification.py:221-224 | Each entry is at least the width of the matching text of every cell in its column. |
| Notification.WidthsAttained | trac/ticket/notification.py:221-224 | Each entry is 0 or the width of the matching text of some cell in its column. |
| Notification.WidthsAreMaxima | trac/ticket/notification.py:208-224 | Entry 2c is the widest caption and 2c+1 the widest value of the cells in column c, or 0 when the column has none. |
| Notification.NegotiatedWidthsFit | trac/ticket/notification.py:225-238 | A table that fits keeps its widths. One that does not fit is narrowed to exactly 75 columns including the `|`, each side between 25 and 49. |
| Notification.NegotiationConstants | trac/ticket/notification.py:227-234 | For 75 columns, half is 37, a quarter is 18 and two thirds is 49. |
| Notification.Dashes | trac/ticket/notification.py:239 | `n` dashes, nothing when `n` is not positive. |
| Notification.Separator | trac/ticket/notification.py:239 | `l` dashes, `+`, `r` dashes. |
| Notification.Addresses | trac/ticket/notification.py:284 | Exactly the words that contain `@`. |
| Notification.AddressesAppend | trac/ticket/notification.py:284 | `filter` keeps the input order: the addresses of a concatenation are those of the first part, then those of the second. |
| Notification.AddressesOne | trac/ticket/notification.py:284 | One word is kept exactly when it contains `@`. |
| Notification.ParseCc | trac/ticket/notification.py:283-284 | Exactly the words of the text, with commas read as spaces, that contain `@`. None of them is empty or holds a comma or a space. |
| Notification.ParseCcJoin | trac/ticket/notification.py:283-284 | Two texts joined by a space give the addresses of the first, in order, followed by those of the second. |
| Notification.NoCommaInWords | trac/ticket/notification.py:284 | After commas become spaces, no word holds a comma. |
| Notification.OnlyIn | trac/ticket/notification.py:289-292 | Exactly the non-empty entries that are not in the other list. |
| Notification.OnlyInAppend | trac/ticket/notification.py:289-292 | The comprehension keeps the input order: a concatenation gives the kept entries of the first part, then those of the second. |
| Notification.OnlyInOne | trac/ticket/notification.py:289-292 | One entry is kept exactly when it is non-empty and not in the other list. |
| Notification.OnlyInCovered | trac/ticket/notification.py:289-292 | Nothing remains when every entry is in the other list. |
| Notification.DiffCc | trac/ticket/notification.py:286-293 | Added: the non-empty new addresses not in the old value. Removed: the non-empty old ones not in the new value. Both are obfuscated. |
| Notification.DiffCcInOrder | trac/ticket/notification.py:286-293 | Both lists keep their input order: at any cut of the new (old) addresses, the added (removed) ones of the first part come before those of the second. |
| Notification.DiffCcDisjoint | trac/ticket/notification.py:286-293 | Without obfuscation, no address is both added and removed. Each added one is new and each removed one is gone. |
| Notification.DiffCcSame | trac/ticket/notification.py:286-293 | An unchanged Cc value gives nothing added and nothing removed. |
| Notification.WithoutUpdater | trac/ticket/notification.py:367-368 | Exactly the To entries that are neither empty nor the updater. |
| Notification.FilterRecipients | trac/ticket/notification.py:360-370 | With `always_notify_updater`, the updater, if any, is appended. Without it, the updater and empty entries are removed, unless the updater is an always-notified reporter or owner. |
| Notification.WithoutUpdaterIdempotent | trac/ticket/notification.py:367-368 | Filtering twice is filtering once. |
| Notification.UpdaterSuppressed | trac/ticket/notification.py:360-368 | When the filter applies, To neither names the updater nor holds an empty entry. |
| Notification.GetRecipients | trac/ticket/notification.py:316-372 | Cc is the previous Cc plus the words of the cc field, with commas read as spaces. With `always_notify_updater`, To holds every change author and the updater. Without it, To holds only the ticket's reporter and owner. A non-empty reporter (owner) that is always notified is always in To. |
| Notification.GetRecipientsSuppressesUpdater | trac/ticket/notification.py:316-372 | Unless the updater is always notified, or is an always-notified reporter or owner, the updater gets no mail and To has no empty entry. |
| AdminWebUi.GetPanels | trac/admin/web_ui.py:99-108 | The concatenation of every provider's panels. Each panel key maps to the last provider that offers it. |
| AdminWebUi.Claim | trac/admin/web_ui.py:105-106 | Every key of this provider's panels now maps to it. Other keys are unchanged. |
| AdminWebUi.OwnerStep | trac/admin/web_ui.py:103-107 | One more provider keeps the last-owner property. |
| AdminWebUi.FirstInCategory | trac/admin/web_ui.py:77 | The first panel of the category, or none. |
| AdminWebUi.SelectPanel | trac/admin/web_ui.py:70-81 | An empty panel list is not found. The category defaults to the first panel's, and the panel to the first of that category. An unknown pair is not found. |
| AdminWebUi.DefaultPanel | trac/admin/web_ui.py:73-81 | With neither category nor panel requested, the first panel is shown, served by its owner. |
| AdminWebUi.RequestedPanel | trac/admin/web_ui.py:79-81 | A requested pair is found if and only if some provider offers a panel with that key. |
| AdminWebUi.RequestedCategory | trac/admin/web_ui.py:73-81 | A category requested without a panel gives the first panel of that category and its owner, and fails if and only if no panel has that category. |
| AdminWebUi.DropLastComponent | trac/admin/web_ui.py:454 | A prefix of the dotted name, shorter than it unless the name is empty. |
| AdminWebUi.BasePathFromPrefix | trac/admin/web_ui.py:452-456 | The search only drops trailing directories, so its result is a prefix of where it starts. |
| AdminWebUi.BasePathPrefix | trac/admin/web_ui.py:450-457 | The base path is a prefix of the path without its extension. |
| AdminWebUi.BasePathUnmatched | trac/admin/web_ui.py:450-457 | A path whose dotted form does not end in the module name is returned without its extension. |
| AdminWebUi.BasePathTopLevel | trac/admin/web_ui.py:450-457 | A one-component module found at the end of the path gives the path's directory. |
| AdminWebUi.FindBasePath | trac/admin/web_ui.py:450-457 | The while loop terminates and computes the base path. |
| AdminWebUi.Cmp | trac/admin/web_ui.py:409-413 | The result is -1, 0 or 1. |
| AdminWebUi.CmpAntisymmetric | trac/admin/web_ui.py:409-413 | Swapping the operands negates the result. |
| AdminWebUi.CmpZero | trac/admin/web_ui.py:409-413 | 0 if and only if the strings are equal. |
| AdminWebUi.CmpTransitive | trac/admin/web_ui.py:409-413 | The order is transitive. |
| AdminWebUi.ComponentOrder | trac/admin/web_ui.py:408-414 | By the number of module components, then the module ignoring case, then the name ignoring case. |
| AdminWebUi.ComponentOrderAntisymmetric | trac/admin/web_ui.py:408-414 | Swapping the components negates the comparison. |
| AdminWebUi.ComponentOrderZero | trac/admin/web_ui.py:408-414 | Equal if and only if the names and the module names agree up to case. |
| AdminWebUi.ComponentOrderTransitive | trac/admin/web_ui.py:408-414 | The comparator is transitive, so sorting by it is well defined. |
| AdminWebUi.Insert | trac/admin/web_ui.py:420 | Inserting a name gives a permutation of the list with the name added. |
| AdminWebUi.InsertSorted | trac/admin/web_ui.py:420 | Inserting into a sorted list keeps it sorted. |
| AdminWebUi.Sort | trac/admin/web_ui.py:419-420 | A sorted permutation of the names. |
| AdminWebUi.Addons | trac/admin/web_ui.py:419 | The names other than `Trac`, in order. |
| AdminWebUi.PluginOrder | trac/admin/web_ui.py:418-421 | There is a list if and only if `Trac` is among the names; otherwise `plugins['Trac']` raises a KeyError. |
| AdminWebUi.PluginOrderSpec | trac/admin/web_ui.py:418-421 | With distinct names including `Trac`, the list starts with `Trac` and holds every plugin exactly once, the rest sorted. |
| AdminWebUi.TogglesSpec | trac/admin/web_ui.py:361-368 | A component is written if and only if it is listed and its enablement differs from the request. It is written as what the request asked for. |
| AdminWebUi.ComponentConfig.DoUpdate | trac/admin/web_ui.py:352-371 | The settings gain exactly the toggles. The configuration is saved once if something changed and not otherwise. |
| AdminWebUi.InstallName | trac/admin/web_ui.py:307-322 | Rejects no upload, an empty base name, a name ending in neither `.egg` nor `.py`, and an installed name. Otherwise the normalized base name. |
| AdminWebUi.InstallFromWindowsPath | trac/admin/web_ui.py:312-313 | `dir\file` is reduced to `file`. |
| AdminWebUi.InstallRefusesOtherFiles | trac/admin/web_ui.py:316-318 | A name ending in neither `.egg` nor `.py` is refused. |
| Dist.EffectiveOptions | trac/dist.py:85-90 | The default keyword maps updated by the given maps, and the default cleandoc keywords plus the given ones. |
| Dist.SetKwarg | trac/dist.py:133-134 | A dictionary assignment: the name now has the message, the entries of other names stay, and nothing else is added. |
| Dist.FlushArg | trac/dist.py:184-192 | The buffer is joined into one message, put under a mapped keyword's name or appended, or None appended when the buffer is empty. The buffer is emptied. |
| Dist.Pad | trac/dist.py:145-146 | Pads with None until the list is longer than the index, keeping its entries. |
| Dist.PlaceOne | trac/dist.py:144-147 | The list padded, with the message at index-1 (Python's index -1 for 0). |
| Dist.Place | trac/dist.py:141-147 | Placing the mapped keyword messages never shortens the list, and gives at least one message when some keyword is mapped. |
| Dist.PlaceKwargs | trac/dist.py:141-147 | The placing loop computes `Place`. |
| Dist.Clean | trac/dist.py:149-150 | `cleandoc` applied to each message that is there, None kept. |
| Dist.Pack | trac/dist.py:151-154 | One message on its own, several as a tuple. |
| Dist.KeepComments | trac/dist.py:157-159 | The comments are kept if and only if the last one is at or after the line before the call. |
| Dist.CommentTexts | trac/dist.py:162 | The comment texts, in order. |
| Dist.PlaceNonEmpty | trac/dist.py:130-154 | At the closing `)` there is at least one message. |
| Dist.OnCommentValid | trac/dist.py:113-128 | A comment outside calls keeps the state valid. |
| Dist.StepValid | trac/dist.py:94-208 | Every token keeps the depth at least -1. Comments exist while they are collected. In a call there is no pending `def` and the line is known. |
| Dist.RunValid | trac/dist.py:94-208 | Every state the extractor reaches is valid. |
| Dist.FinishResets | trac/dist.py:164-170 | The closing `)` of a call yields it and resets every variable. |
| Dist.NestedParens | trac/dist.py:99-202 | A nested `(` only deepens the call and records its line. The matching `)` only makes it shallower. Neither yields. |
| Dist.DefParenIgnored | trac/dist.py:97-104 | After `def` or `class`, the next `(` starts nothing and yields nothing. |
| Dist.KeywordForgotten | trac/dist.py:203-204 | A keyword not followed by `(` is forgotten. |
| Dist.LiteralBuffered | trac/dist.py:171-180 | At the top level of a call, a string literal is added to the argument's buffer. |
| Dist.CommaEndsArgument | trac/dist.py:183-193 | A `,` ends an unnamed argument. Its literals joined become the next message, or None. |
| Dist.CloseYieldsMessages | trac/dist.py:130-162 | The closing `)` of a call without keyword arguments yields its argument messages, the last joined from its literals. One message comes on its own, several as a tuple. |
| Dist.ExtractPython | trac/dist.py:61-208 | The token loop yields exactly what the step function yields over the tokens, in order. |
| Dist.Feed | trac/dist.py:95-208 | One token through the `if`/`elif` chain is one `Step`. |
| Dist.FeedParen | trac/dist.py:99-108 | The `(` branch is `Step` on a `(`. |
| Dist.FeedComment | trac/dist.py:113-128 | The comment branch continues the comments of the line above, or starts them on a tag. |
| Dist.FeedCall | trac/dist.py:129-208 | The rest of the chain is `Step`. |
| Dist.FeedInCall | trac/dist.py:129-200 | The branches at the top level of a call are `Step`. |
| Dist.SkipSpace | trac/dist.py:343 | `\s*`: the first non-space index. |
| Dist.RunEnd | trac/dist.py:343 | `[^;]*`: the first `;` at or after the index, or the end. |
| Dist.MatchAt | trac/dist.py:343 | The group matched at a position, non-empty and free of `;`. |
| Dist.SearchFrom | trac/dist.py:343 | The leftmost matching position, and no match before it. |
| Dist.PluralExpr | trac/dist.py:342-346 | A ValueError if and only if the pattern matches at no position. Otherwise the group of a match, which is non-empty and has no `;`. |
| Dist.PluralExprAtStart | trac/dist.py:343-346 | `plural=e;...` gives `e`. |
| Dist.PluralExprBacktracks | trac/dist.py:343 | `plural= ;` captures the space. |
| Dist.PluralExprMissing | trac/dist.py:344-345 | Without the word `plural` there is a ValueError. |
| Dist.NoMatchInsideWord | trac/dist.py:343 | `plural` inside a word, as in `nplurals`, does not match. |
| Dist.HeaderFields | trac/dist.py:323-330 | One parsed field per header line. |
| Dist.PluralFormsLine | trac/dist.py:323-333 | The first `plural-forms` field at or after the index. |
| Dist.HeaderWithoutPluralForms | trac/dist.py:322-333 | There is no plural expression if and only if no header line is a `plural-forms` line. |
| Dist.HeaderFirstPluralForms | trac/dist.py:322-333 | Otherwise the header gives the plural expression, or the error, of its first `plural-forms` line. |
| Dist.AddEntry | trac/dist.py:317-333 | A plural form goes into its id's form map, and fails on a plain message. A plain message replaces its id's value. The header sets the plural expression. |
| Dist.GroupErrSticks | trac/dist.py:316-333 | Once an entry has raised, later entries do not matter. |
| Dist.GroupKeys | trac/dist.py:316-321 | The messages' keys are exactly the non-empty message ids of the catalog. |
| Dist.GroupSingularLast | trac/dist.py:320-321 | A plain message maps to its last entry's translation. |
| Dist.GroupPluralForm | trac/dist.py:317-319 | A plural form keeps its last translation as long as no later plain entry of that id follows. |
| Dist.GroupSingularThenPlural | trac/dist.py:317-321 | A plain entry followed by a plural form of the same id raises. |
| Dist.StaysText | trac/dist.py:316-321 | When the grouping succeeds, an id with a plain entry maps to a translation, not to a form map. |
| Dist.GroupPluralExprFromHeader | trac/dist.py:322-333 | A plural expression comes from some header entry. |
| Dist.GroupErrPrefix | trac/dist.py:316-333 | An error raised by the first entries is the error of the whole catalog. |
| Dist.ParseField | trac/dist.py:323-330 | One header line as its field: none for a blank line or one without `:`, else the stripped lower-case name before the first `:` and the rest. |
| Dist.ScanHeader | trac/dist.py:323-333 | The header loop gives the first `plural-forms` line's expression, or none. |
| Dist.WriteJs | trac/dist.py:311-334 | The domain, the locale, the header's plural expression and the grouped messages, or the error an entry raised. |

## Left out

- Databases, files and processes are not modelled:
  - SQL and transactions: the `cache` and `attachment` tables are in-memory maps, and each query is a
    function over them.
  - Threads and `threading.RLock`: the model is one sequential thread per manager, so the guarantee of
    at most one recompute per id in flight is not stated.
  - The file system: `unlink`, `rename`, `makedirs`, `create_unique_file`, file copies, the plugin
    directory. Where a result depends on the disk, it is a parameter, such as the target-exists flag of
    `Reparent`, the stored name of `Insert` and the installed set of `InstallName`.
- Retriever dispatch on `arity(retriever)`: the retriever is one function of the instance, which returns
  a value or fails.
- Foreign helpers are parameters:
  - `unicode_quote`, `unicodedata.normalize`, `obfuscate_email_address`, `east_asian_width` and `db.concat`;
  - `cleandoc`, and the address separator pattern of notification mail (`split`);
  - `is_component_enabled`, the permission test `perm` (`granted`) and the delegate policies (their
    decisions in order).
- `os.path.join` and `normpath`: `Attachment.GetPath` returns the list of path segments, and `..`
  segments are not resolved.
- Attachments.Attachment.PathInsideDirectory: the prefix fact holds by construction over the unresolved
  segments. In the code, a realm or an id holding a `..` segment can lead `normpath` out of the
  directory, and then the `assert` at `trac/attachment.py:364-367` fails. The model does not capture
  that failure.
- Attachments.Attachment.Insert: its error cases are the two `ValueError`s only. The `AssertionError`
  of the path guard for a realm or id with `..` segments is not modelled, so for such an attachment the
  model stores the row where the code refuses.
- The descriptors' `__get__` with `instance is None` returns the descriptor itself
  (`trac/cache.py:57`, `:81`). The model has only the lookup on an instance or class.
- `get_recipients` starts `ccrecipients` as `self.prev_cc` and extends it with `+=`
  (`trac/ticket/notification.py:324`, `:331`), so the code also extends `self.prev_cc` in place.
  `GetRecipients` returns a new list, and that aliasing is not modelled.
- Change listeners, logging, rendering, HTTP redirects, templates and the request objects are not modelled.
- `tokenize` and the `eval` of string literals: `extract_python` runs on decoded tokens. The file's
  encoding is not modelled.
- The text wrapping and cell layout of `format_props` after the separator line (`wrap`, `cell_tmp`,
  `big`) are not modelled. Only the widths and the separator are.
- `_do_uninstall`, `_do_delete`, `get_history`, `select`, `delete_all`, `reparent_all` and the
  distutils commands are I/O around the modelled rules and are left out.
- `to_json` and the writing of the JavaScript file: `WriteJs` returns the data that would be written.
- Python 2 dictionary iteration order (`messages_kwargs`, the catalog, `plugins.keys()`) is modelled as
  insertion order or as a given sequence.
- Case mapping covers ASCII letters only (`lower`, `capitalize`, `isupper`).
- `Sort` is an insertion sort standing for `list.sort`. Only its result is specified: sorted and a
  permutation.
- Dist.CommaEndsArgument: stated only for an argument that is not a mapped keyword argument. The
  keyword case is covered by `FlushArg`'s contract.
- Dist.CloseYieldsMessages: stated only for a call without mapped keyword arguments and for a
  keyword that is not cleaned with `cleandoc`. The general case is `FinishCall`, which
  `ExtractPython` follows.
- The attachment tests expect the archived path of version 0 to end in `foo.txt`. The code at
  `trac/attachment.py:223-224` gives `00000_foo.txt`, and the model follows the code.

## Findings

| source | as written | input that shows it | evidently intended | confidence | as-written member | corrected member |
|---|---|---|---|---|---|---|
| trac/ticket/report.py:313-314 | A saved query that names a report number passes when the text `report=<id>` occurs anywhere in it. | Report 1 whose SQL is `?report=12` is redirected as a query for report 12, not sent to the edit page. | The `report` argument must carry this report's number: a longer number, or `report=` inside another argument's name, is another report. | not executed | Report.AsWrittenAcceptsOtherReport | Report.UrlQueryRewrite |
