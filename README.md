# Archive bot core in Dafny

A model of the deterministic core of a Telegram archive bot. Admins post
course material (lectures, slides, exams, attendance sheets) into forum topics
bound to subjects, tagging each upload with Arabic hashtags. The bot reads the
hashtags, checks who posted and where, records the upload as a material with a
pending ingestion, and lets an approver copy it into the archive channel.
Students browse the archive through reply keyboards (level → term → subject →
section) and an inline navigation tree.

The model covers, one Dafny module per component:

- **Caption parsing**: `HashtagParser` (the `#`-line state machine: one
  content tag, then year, lecturer and lecture tags, with its error codes),
  `HijriYear` (`extract_hijri_year`), `Session` (`parse_session`),
  `Context` (`parse_context`), `Formatting` (Arabic ordinals and display
  names). Regular expressions are written out as hand-made matchers over
  `seq<char>` in `Text`.
- **Tables**: each SQLite table the core writes is a class with `seq` fields
  and an id counter (`Taxonomy`, `HashtagRepo`, `Materials`, `Subjects`,
  `TermResources`, `Ingestions`, `Linking`, `Admins`, `Rbac`); its reads are
  functions over the rows (`WHERE` filters and a stable `ORDER BY
  sort_order`, in `Seqs`). `ImportExport` models the taxonomy export and the
  import diff with its `strict` and `dry_run` modes.
- **Handlers**: `IngestionHandler` (the upload pipeline, the duplicate
  prompt and its answers) and `Approvals` (listing and approve/reject), as
  methods over the stores with Telegram replies returned as values.
- **Navigation**: `NavStacks` (the inline tree's stack), `NavState` (the
  reply-keyboard state), `NavCache` (the 90-second children cache),
  `NavTree` (callback parsing, state extraction and push/pop rollback),
  `NavMenu` (`build_menu`), `Paginated` (child pages), `Keyboards` (row
  chunking and the flag-driven menus), `Callbacks` (callback-data round
  trips).
- **Utilities**: `TelegramUtil` (archive links and file ids),
  `Sensitivity` (the keyword/pattern threshold), `Translation`
  (catalogue precedence and key fallback).

Integers are unbounded; a nullable column is an `Option` whose `None` is
SQL `NULL` (a card's section, for one); the time of day is a parameter
wherever the source reads the clock.

## Model

| member | source | states |
|---|---|---|
| Admins.FlagValues | bot/db/admins.py:10-23 | the four permission flags are the bits 0 to 3 and `FULL_ACCESS` is 2^31 - 1 |
| Admins.FlagsWithinFullAccess | bot/db/admins.py:10-23 | every bit below 31 lies within `FULL_ACCESS`, and two different single bits never share a bit |
| Admins.ActiveRow | bot/db/admins.py:72-78 | the row found by `tg_user_id=? AND is_active=1` belongs to that user and is active; there is none exactly when the user has no active row |
| Admins.HasPerm | bot/db/admins.py:30-41 | the owner always passes; without a user only the owner check remains; anyone else needs an active row whose mask shares a bit with the permission |
| Admins.HasFlag | bot/db/admins.py:30-41 | for a non-owner and a single flag bit, `has_perm` holds exactly when the active row has that bit |
| Admins.ListAdmins | bot/db/admins.py:64-69 | the views listed are exactly those of the active rows |
| Admins.GetAdmin | bot/db/admins.py:72-78 | nothing exactly when the user has no active row, otherwise the view of an active row of that user |
| Admins.GetAdminWithPermissions | bot/db/admins.py:117-131 | an active row gives its id and mask; without one the owner gets `(0, FULL_ACCESS)` and anyone else nothing |
| Admins.GetAdminIdByTgUser | bot/db/admins.py:134-141 | nothing exactly when there is no active row, otherwise the id of an active row of that user |
| Admins.IsAdmin | bot/db/admins.py:144-166 | a non-owner without an active row is an admin iff listed in `ADMIN_USER_IDS`; otherwise (owner as full access with scope `all`) a non-zero permission must share a bit with the mask and a given level must be `all` or the level's decimal text |
| Admins.OwnerIsAdmin | bot/db/admins.py:144-148 | the owner passes `is_admin` for every flag and every level |
| Admins.AdminUpsert | bot/db/admins.py:81-97 | the upsert on `tg_user_id` keeps one row per user with ids below the next id, and the user reads back as the updated or the new row |
| Admins.AdminStore.EnsureOwnerFullPerms | bot/db/admins.py:44-61 | without an owner nothing changes; otherwise the owner's active row is `OWNER`/`OWNER` with full access and scope `all` |
| Admins.AdminStore.AddAdmin | bot/db/admins.py:81-97 | the table is the upsert of the user's row (new `ADMIN` row, or reactivated with the new name, mask and scope), and `get_admin` then returns exactly those values |
| Admins.AdminStore.UpdateAdmin | bot/db/admins.py:100-108 | only the user's row changes, to the new name, mask and scope; no row is added |
| Admins.AdminStore.RemoveAdmin | bot/db/admins.py:111-114 | only the user's row becomes inactive; afterwards `get_admin` and the id lookup find nothing and `has_perm` is true only for the owner |
| Admins.AdminStore.constructor | bot/db/admins.py:64-69 | the table starts empty |
| Approvals.ListPending | bot/handlers/approvals.py:24-45 | nothing for a user who may not approve; otherwise one entry per pending ingestion whose material exists, and each entry's two buttons parse back as approve and reject of that ingestion |
| Approvals.EntryReadsBack | bot/handlers/approvals.py:36-38 | the `appr:{id}` and `rej:{id}` button data parse back as that decision on that ingestion |
| Approvals.HandleDecision | bot/handlers/approvals.py:48-130 | a non-approver, malformed data or an unknown ingestion change nothing; approving moves the material's storage to the archive copy and marks the ingestion approved; rejecting deletes the ingestion and, unless it is a replacement, its material; either way the ingestion leaves the pending list |
| Approvals.Discard | bot/handlers/approvals.py:119-122 | the ingestion row is removed; the material is removed too unless the action is `replace`; the ingestion is no longer listed as pending |
| Approvals.Accept | bot/handlers/approvals.py:72-118 | only the material's storage chat, message and file id and the ingestion's status change; the material now reads back with the archive message id |
| Approvals.NotPendingNotListed | bot/db/ingestions.py:38-51 | an ingestion none of whose rows is pending is absent from the pending list |
| Callbacks.Split | bot/handlers/approvals.py:55 | `split(":")` gives at least one piece and no piece holds the separator |
| Callbacks.JoinSplit | bot/handlers/approvals.py:55 | joining the pieces of a split with the separator gives the text back |
| Callbacks.SplitJoin | bot/handlers/ingestion.py:308 | pieces without the separator, joined and split again, come back unchanged |
| Callbacks.ParseIntToString | bot/handlers/approvals.py:56 | `int(str(i)) == i` |
| Callbacks.ParseDecision | bot/handlers/approvals.py:55-56 | a parsed decision came from exactly two pieces, its action free of `:` |
| Callbacks.DecisionRoundTrip | bot/handlers/approvals.py:37-38 | the `appr:{id}`/`rej:{id}` data parses back as the action and id it was built from |
| Callbacks.ParseDuplicate | bot/handlers/ingestion.py:308-309 | a parsed duplicate-prompt press came from at least three pieces, its action free of `:` |
| Callbacks.ReplaceRoundTrip | bot/handlers/ingestion.py:212 | the replace button's `dup:rep:{msg}:{old}` data parses back as `rep` and the message id |
| Callbacks.CancelRoundTrip | bot/handlers/ingestion.py:215 | the cancel button's `dup:cancel:{msg}` data parses back as `cancel` and the message id |
| Callbacks.ParseChoice | bot/handlers/ingestion.py:397-399 | a parsed keep/delete press came from exactly four pieces, its action free of `:` |
| Callbacks.ChoiceRoundTrip | bot/handlers/ingestion.py:339-342 | the keep/delete buttons' data parses back as the action, message id and user id |
| Context.BindingByTopic | bot/parser/context.py:33-37 | nothing exactly when no topic row has that group and thread; otherwise the subject and section of such a row |
| Context.TagToken | bot/parser/context.py:50 | nothing exactly for a blank tag (where `split()[0]` raises); otherwise a token without whitespace and without a leading `#` |
| Context.FirstOfKind | bot/parser/context.py:52-56 | nothing exactly when no target has that kind; otherwise the id of the first one that has it |
| Context.AbsorbIsFirst | bot/parser/context.py:52-56 | the inner loop keeps what was already found and fills each missing kind with the first target of that kind |
| Context.ScanFrom | bot/parser/context.py:49-58 | the scan fails only with `IndexError`, and only when some tag is blank |
| Context.ParseContextSpec | bot/parser/context.py:19-70 | a result either has a context and no error or has no context and `E-NO-CONTEXT`; in a thread there is never a crash |
| Context.FirstOfKindConcat | bot/parser/context.py:49-56 | the first target of a kind over two runs of tags is the first in the first run, else the first in the second |
| Context.ScanIsFirstTargets | bot/parser/context.py:49-58 | with no blank tag, the early-stopping scan finds the first subject and the first section over all the tags' targets |
| Context.ScanStopsWhenComplete | bot/parser/context.py:57-58 | once a subject and a section are found, the tags after them are not read: appending any tags, blank ones included, changes nothing |
| Context.HashtagContext | bot/parser/context.py:47-70 | outside a thread the context, with source `hashtags`, is found exactly when some tag gives a subject and some tag gives a section, and holds the first of each; otherwise `E-NO-CONTEXT` |
| Context.TopicContext | bot/parser/context.py:33-45 | in a thread the context is the thread's binding with source `topic`, whatever the tags, or `E-NO-CONTEXT` when the thread is unbound |
| Context.ParseContextAsWritten | bot/parser/context.py:33-37 | as written, any thread id ends in `AttributeError`; without one it agrees with the intended parse |
| Context.TopicLookupMissing | bot/parser/context.py:33-45 | a bound thread crashes as written and gives its binding's subject and section once the lookup reads the topic row |
| Context.ParseContext | bot/parser/context.py:19-70 | the nested loops with the early `break` compute exactly `ParseContextSpec` |
| Formatting.OrdinalWordsDistinct | bot/utils/formatting.py:3-14 | the table has ten words, no two alike, none starting with a digit or a minus sign |
| Formatting.ArabicOrdinal | bot/utils/formatting.py:17-19 | 1 to 10 give a word of the table; any other number gives `str(n)` |
| Formatting.OrdinalNumber | bot/parser/hashtags.py:44 | a word read back gives the number 1 to 10 whose table entry it is, and nothing for a word not in the table |
| Formatting.OrdinalRoundTrip | bot/utils/formatting.py:17-19 | reading `arabic_ordinal(n)` back gives `n` for 1 to 10, and the fallback `str(n)` is never read as an ordinal |
| Formatting.OrdinalNumberInverse | bot/parser/hashtags.py:44 | a word that reads as a number is that number's ordinal, and every table word reads as one |
| Formatting.ToDisplayName | bot/utils/formatting.py:22-27 | the result has no surrounding whitespace, no `_` and no LRM/RLM, and is no longer than the raw name |
| Formatting.DisplayNameFromValue | bot/utils/formatting.py:22-27 | every character of the display name is a space or a character of the raw name |
| Formatting.DisplayNameKeepsVisible | bot/utils/formatting.py:22-27 | every character of the raw name that is not whitespace, `_` or a direction mark appears in the display name |
| Formatting.DisplayNameOfPlain | bot/utils/formatting.py:22-27 | a raw name without `_` and direction marks is only stripped |
| Formatting.ToDisplayNameIdempotent | bot/utils/formatting.py:22-27 | cleaning a display name again changes nothing |
| HijriYear.SearchFrom | bot/parser/__init__.py:7-18 | `re.search` finds the leftmost start at or after a position where the year group can be captured, or nothing when there is none |
| HijriYear.CapturedYearInRange | bot/parser/__init__.py:7-22 | a captured `13dd`/`14dd`/`15dd` group lies between 1300 and 1599, so the range check never rejects one |
| HijriYear.ExtractHijriYear | bot/parser/__init__.py:9-23 | a year is returned exactly when the text is present and its cleaned form has a capture; it is the leftmost one and lies in 1300..1600 |
| HijriYear.YearIn | bot/parser/__init__.py:18-23 | on a cleaned text: a year exactly when there is a capture, the leftmost one, within range |
| HijriYear.CleanIdempotent | bot/parser/__init__.py:17 | removing direction marks and mapping Arabic-Indic digits twice is doing it once |
| HijriYear.CleanedTextSameYear | bot/parser/__init__.py:17 | a text and its cleaned form give the same year |
| HijriYear.NoDigitsNoYear | bot/parser/__init__.py:18-23 | a text with no digit once cleaned gives no year |
| HijriYear.LongRunNoYear | bot/parser/__init__.py:7 | four digits inside a run of five are never captured, at either of the two starts |
| HijriYear.ArabicIndicYear | tests/test_parser.py:6-7 | `"سنة #١٤٤٦هـ"` gives the year 1446: the Arabic-Indic digits are translated and the suffix `هـ` does not stop the capture |
| HashtagParser.SplitTagLines | bot/parser/hashtags.py:79-85 | every kept line is stripped and starts with `#`; every line whose stripped form starts with `#` is kept; nothing else is kept |
| HashtagParser.TagLinesMembers | bot/parser/hashtags.py:79-85 | the same three facts about the filter over any list of lines |
| HashtagParser.Token | bot/parser/hashtags.py:101 | the first word of a tag line is a prefix of it, holds no whitespace, still starts with `#`, and is followed by whitespace when shorter |
| HashtagParser.YearTag | bot/parser/hashtags.py:45-121 | a year is read exactly when the token is `#`, four decimal digits and optionally هـ or ه, and nothing else; the value has four digits |
| HashtagParser.DigitsBound | bot/parser/hashtags.py:121 | `int()` of n digits is below 10^n |
| HashtagParser.LecturerOf | bot/parser/hashtags.py:32-131 | a lecturer is found exactly when some listed prefix starts the alias; it is the display name of what follows the first such prefix in the listed order |
| HashtagParser.LecturerFrom | bot/parser/hashtags.py:126-129 | the same from the k-th prefix on, given that no earlier prefix matches |
| HashtagParser.LectureTag | bot/parser/hashtags.py:46-135 | a match has `#`, a non-empty prefix without `_` up to the first `_`, and a non-empty identifier starting right after it |
| HashtagParser.LectureNumber | bot/parser/hashtags.py:138-142 | an all-digit identifier gives its value; any other gives the number of its ordinal word, or nothing |
| HashtagParser.ContentItemType | bot/parser/hashtags.py:115 | an item type is found only for a numeric content type, and it is the enabled item type of that id |
| HashtagParser.ContentStep | bot/parser/hashtags.py:104-117 | on success only the content type changes and the stage becomes meta; an early return keeps the info; `E-HT-MULTI` needs a content type already set |
| HashtagParser.LectureStep | bot/parser/hashtags.py:133-148 | a lecture tag with a known prefix changes only the number, its display and the title and ends in the done stage; an unknown prefix is `E-ALIAS-UNKNOWN` with the info unchanged |
| HashtagParser.MetaStep | bot/parser/hashtags.py:119-151 | after the content tag a line never changes the tags, the content type, the item type or a lecturer already set; its only early return is `E-ALIAS-UNKNOWN` |
| HashtagParser.Step | bot/parser/hashtags.py:100-151 | one loop pass keeps the tags and a lecturer already set, and can return `E-HT-MULTI` only on the content line with a content type set |
| HashtagParser.StopPersists | bot/parser/hashtags.py:107-151 | after an early return the later tag lines are not looked at |
| HashtagParser.RunKeeps | bot/parser/hashtags.py:100-151 | a property every pass keeps holds at the end of the loop, and an early return satisfies what every pass's early return does |
| HashtagParser.HandleContentTag | bot/parser/hashtags.py:104-117 | the first tag gives `E-ALIAS-UNKNOWN` exactly when the alias has no mapping, `E-NO-CONTEXT` exactly when its first mapping is not a content tag, and otherwise moves on with the alias's normalized value as content type and the item type that value names |
| HashtagParser.HandleMetaTag | bot/parser/hashtags.py:119-151 | a year tag changes only the year; else the first lecturer tag changes only the lecturer; else a lecture tag, while no number is set, stops with `E-ALIAS-UNKNOWN` exactly when its prefix is no alias and otherwise sets the number and the stripped title; any other tag stops with `E-ALIAS-UNKNOWN` exactly when it is no alias and otherwise changes nothing |
| HashtagParser.HandleTag | bot/parser/hashtags.py:100-151 | an early return keeps the info gathered so far; after the first tag the stage is never the content stage again, the content type and item type no longer change and the only error is `E-ALIAS-UNKNOWN` |
| HashtagParser.RunStep | bot/parser/hashtags.py:100 | the loop over tag lines advances by one step |
| HashtagParser.ParseTagLines | bot/parser/hashtags.py:93-158 | the loop with its early returns and final checks computes the state machine over the tag lines |
| HashtagParser.ParseHashtags | bot/parser/hashtags.py:88-158 | `parse_hashtags` computes the state machine over the tag lines of the cleaned caption |
| HashtagParser.NoTagsNoContext | bot/parser/hashtags.py:93-95 | a caption without tag lines gives empty info and `E-NO-CONTEXT` |
| HashtagParser.FirstTagDecidesContent | bot/parser/hashtags.py:105-110 | a first tag whose alias has no mapping gives `E-ALIAS-UNKNOWN`; one whose first mapping is not a content tag gives `E-NO-CONTEXT` |
| HashtagParser.NeverMulti | bot/parser/hashtags.py:111-112 | `E-HT-MULTI` is never returned |
| HashtagParser.ParseKeepsTags | bot/parser/hashtags.py:93 | the returned info always carries the caption's tag lines |
| HashtagParser.YearTagSetsYear | bot/parser/hashtags.py:119-122 | a year tag sets the year to its digits and changes nothing else |
| HashtagParser.LecturerFirstWins | bot/parser/hashtags.py:124 | once set, the lecturer is kept to the end of the loop, early returns included |
| HashtagParser.LecturerTagSetsLecturer | bot/parser/hashtags.py:124-131 | a lecturer tag with no lecturer yet sets it to the display name after the prefix |
| HashtagParser.LectureTagUnknownPrefix | bot/parser/hashtags.py:136-137 | a lecture tag whose prefix is not an alias returns `E-ALIAS-UNKNOWN` with the info so far |
| HashtagParser.LectureTagSetsNumber | bot/parser/hashtags.py:138-147 | a lecture tag with a known prefix sets the number from digits or an ordinal word, the stripped title when present, and ends in the done stage |
| HashtagParser.OtherTagMustBeAlias | bot/parser/hashtags.py:149-151 | any other tag line is accepted exactly when it is a known alias, and changes nothing |
| HashtagParser.SuccessMeansComplete | bot/parser/hashtags.py:153-158 | no error implies a content type; at the end of the loop, success holds exactly when a content type is set and no required lecture number is missing, and `E-NO-SESSION` exactly when one is missing |
| HashtagParser.MappedAliasExists | bot/parser/hashtags.py:67-71 | an alias with a mapping has an alias row, so `alias_row[2]` does not fail |
| HashtagParser.ClassifyHashtag | bot/parser/hashtags.py:60-76 | card exactly when the stripped tag starts with `#` and the first mapping of the rest targets a card; section likewise; the code is the alias's normalised text |
| HashtagRepo.GetAlias | bot/repo/hashtags.py:36-54 | the row returned has exactly that alias text; none is returned only when no row has it |
| HashtagRepo.AliasById | bot/repo/hashtags.py:151 | the alias row joined by id, or none when no row has that id |
| HashtagRepo.GetMappingsForAlias | bot/repo/hashtags.py:134-155 | a row is returned exactly when a mapping joins an alias row of that text; every row carries the alias text; no more rows than mappings |
| HashtagRepo.LookupTargets | bot/repo/hashtags.py:159-173 | one `(target_kind, target_id)` pair per mapping row, in the same order |
| HashtagRepo.AtMostOneMapping | bot/repo/hashtags.py:134-155 | under the table's unique constraints an alias text has at most one mapping |
| HashtagRepo.AliasTextKey | bot/repo/hashtags.py:51 | two rows with the same alias text are the same row |
| HashtagRepo.AliasIdKey | bot/repo/hashtags.py:151 | two rows with the same id are the same row |
| HashtagRepo.IndexOfView | bot/repo/hashtags.py:149-152 | every returned row is the view of some mapping that joins the alias |
| HashtagRepo.ViewsDistinct | bot/repo/hashtags.py:149-152 | with unique mapping ids, no returned row repeats |
| HashtagRepo.PatchRows | bot/repo/hashtags.py:71-74 | the row with that id gets the named columns; every other row is unchanged |
| HashtagRepo.GetAliasAppend | bot/repo/hashtags.py:28-51 | after inserting a new alias text, `get_alias` finds the inserted row |
| HashtagRepo.HashtagStore.constructor | bot/repo/hashtags.py:1 | both tables start empty and valid |
| HashtagRepo.HashtagStore.CreateAlias | bot/repo/hashtags.py:10-32 | succeeds exactly when neither the text nor the folded normalised form is taken; then the row is appended with a fresh id and `get_alias` finds it; on error nothing changes |
| HashtagRepo.HashtagStore.UpdateAlias | bot/repo/hashtags.py:58-75 | no fields changes nothing; otherwise the named columns of that row change, or nothing does on a constraint error |
| HashtagRepo.HashtagStore.DeleteAlias | bot/repo/hashtags.py:79-91 | the rows with that id are removed and their text is no longer found |
| HashtagRepo.HashtagStore.CreateMapping | bot/repo/hashtags.py:97-130 | succeeds exactly when the alias id has no mapping yet; then the row is appended with a fresh id; on error nothing changes |
| ImportExport.ExportTaxonomy | bot/handlers/import_export.py:31-154 | the export holds the six table keys in the documented order, and `presets` last exactly when asked for |
| ImportExport.ExportSections | bot/handlers/import_export.py:41-57 | every section is written, and nothing else, in id order |
| ImportExport.ExportCards | bot/handlers/import_export.py:59-77 | every card is written, and nothing else, in id order |
| ImportExport.ExportItemTypes | bot/handlers/import_export.py:79-98 | every item type is written, and nothing else, in id order |
| ImportExport.ExportAliases | bot/handlers/import_export.py:100-112 | exactly the alias rows are written, as text, normalised form and language |
| ImportExport.ExportMappings | bot/handlers/import_export.py:114-133 | exactly the mappings whose alias row exists are written, under that alias's text |
| ImportExport.ExportEnables | bot/handlers/import_export.py:135-150 | every enablement row is written, and nothing else, ordered by subject |
| ImportExport.PlanTableReports | bot/handlers/import_export.py:207-229 | an incoming row with no stored row is reported as added; one that differs is reported as updated, or as a conflict under `strict` |
| ImportExport.PlanTableQuiet | bot/handlers/import_export.py:225-229 | `strict` reports no updates, non-strict no conflicts, and rows equal to the stored ones plan nothing |
| ImportExport.PlanStep | bot/handlers/import_export.py:207-243 | one more incoming row joins the list its verdict names and adds at most one statement |
| ImportExport.DiffTable | bot/handlers/import_export.py:194-243 | the loop over one table's incoming rows computes that table's report lists and statements |
| ImportExport.MappingIdentity | bot/handlers/import_export.py:406-418 | an incoming mapping finds a stored row exactly when its alias exists and has a mapping to the same target kind and id |
| ImportExport.ApplyOpValid | bot/handlers/import_export.py:519-521 | every statement that succeeds keeps ids and the unique indexes of all tables |
| ImportExport.TaxonomyOpValid | bot/handlers/import_export.py:210-369 | the same for the section, card and item-type statements |
| ImportExport.TagOpValid | bot/handlers/import_export.py:382-461 | the same for the alias and mapping statements |
| ImportExport.ApplyOpsValid | bot/handlers/import_export.py:519-521 | a run of statements that succeeds keeps the tables valid |
| ImportExport.Import | bot/handlers/import_export.py:159-524 | a dry run changes nothing and returns the report; `strict` with a conflict changes nothing and raises `ValueError` unless dry; a failed statement changes nothing; success returns the report |
| ImportExport.PlanImport | bot/handlers/import_export.py:176-511 | the six loops compute the report and the statements of the plan |
| ImportExport.RunOps | bot/handlers/import_export.py:519-521 | the loop over the statements computes the tables after all of them, or the first error, and keeps them valid |
| ImportExport.RunImport | bot/handlers/import_export.py:176-524 | the plan, the strict and dry-run exits and the statements compute the import's outcome, with valid tables |
| ImportExport.ImportTaxonomy | bot/handlers/import_export.py:159-524 | the stores end in the tables of the import's outcome and stay valid; the result is the import's report or error |
| ImportExport.Commit | bot/handlers/import_export.py:522 | after the commit the stores hold the copy's tables and are valid |
| ImportExport.ReimportSections | bot/handlers/import_export.py:46-206 | every exported section is found again with equal values |
| ImportExport.ReimportCards | bot/handlers/import_export.py:64-260 | every exported card is found again with equal values |
| ImportExport.ReimportItemTypes | bot/handlers/import_export.py:84-323 | every exported item type is found again with equal values |
| ImportExport.ReimportAliases | bot/handlers/import_export.py:105-378 | every exported alias is found again with equal values |
| ImportExport.ReimportMappings | bot/handlers/import_export.py:124-422 | every exported mapping is found again under its alias and target with equal values |
| ImportExport.ReimportEnables | bot/handlers/import_export.py:140-473 | every exported enablement row is found again with equal values |
| ImportExport.QuietPlan | bot/handlers/import_export.py:176-511 | incoming rows that all equal the stored ones report nothing and plan no statement |
| ImportExport.QuietImport | bot/handlers/import_export.py:513-524 | an empty plan returns an empty report and leaves the tables unchanged in every mode |
| ImportExport.ReimportPlansNothing | bot/handlers/import_export.py:31-511 | importing a fresh export plans nothing |
| ImportExport.ReimportIsEmpty | bot/handlers/import_export.py:31-524 | importing a fresh export gives an empty report and leaves the tables unchanged, under every mode |
| ImportExport.ImportedMappingResolves | bot/handlers/import_export.py:427-438 | a mapping inserted while its alias exists is found by `lookup_targets` for that alias |
| ImportExport.UnresolvedMappingIsLost | bot/handlers/import_export.py:411-438 | as written, a mapping inserted with a `NULL` alias id is found by `lookup_targets` under no text |
| ImportExport.NewAliasPlan | bot/handlers/import_export.py:372-440 | a new alias with its mapping plans the alias insert and then a mapping insert with no alias id |
| ImportExport.NewAliasMappingLost | bot/handlers/import_export.py:405-521 | as written, importing new alias `hw` with its mapping stores the mapping with a `NULL` alias id, and `lookup_targets("hw")` is empty |
| ImportExport.NewAliasMappingKept | bot/handlers/import_export.py:405-521 | with the alias resolved when the insert runs, the same import makes `lookup_targets("hw")` find card 1 |
| ImportExport.FirstImportResults | bot/handlers/import_export.py:372-521 | importing `hw` with its mapping into empty tables leaves the alias and the mapping, under alias id 1 when the alias is resolved as the insert runs and under `NULL` as written |
| ImportExport.NewAliasReimportQuiet | bot/handlers/import_export.py:17-18 | importing the same data again, from the tables the first import left, reports nothing and plans no statement: the import is idempotent on that data |
| ImportExport.NewAliasReimportDuplicates | bot/handlers/import_export.py:17-18 | as written, the second import of the same data plans the mapping insert again, and running it stores a second copy of the mapping next to the first |
| ImportExport.LostReplan | bot/handlers/import_export.py:372-440 | over the tables the import left as written, the alias is found unchanged and the mapping is not recognised, so the only statement planned is the mapping insert with alias id 1 |
| ImportExport.LostMappingUnseen | bot/handlers/import_export.py:405-418 | a stored mapping with a `NULL` alias id is not the stored counterpart of an incoming mapping |
| IngestionHandler.Admit | bot/handlers/ingestion.py:31-172 | a parse error, a missing user, a non-admin, no upload right, no chat or an unknown group stops the update in that order; attendance goes to the term of the group; anything else needs a thread bound to a subject and a recognised category, and every upload admitted satisfies all of these |
| IngestionHandler.BindingCheckedBeforeCategory | bot/handlers/ingestion.py:124-160 | an unrecognised category in a topic that is not bound is answered as needing a binding |
| IngestionHandler.AltTitle | bot/handlers/ingestion.py:180 | there is an alternative title exactly when the lecture title differs from the plain title, and it is the plain title |
| IngestionHandler.ShowNumberInjective | bot/handlers/ingestion.py:58 | two lecture numbers never render alike, and a rendering holds no colon |
| IngestionHandler.ShowNumberReadsBack | bot/handlers/ingestion.py:58 | the rendering of a lecture number reads back as that number |
| IngestionHandler.SameBeforeColon | bot/handlers/ingestion.py:58 | two texts equal up to their first colon agree before it |
| IngestionHandler.DifferBeforeColon | bot/handlers/ingestion.py:58 | two texts that differ before their first colon differ |
| IngestionHandler.LectureNumbersKeepTitlesApart | bot/handlers/ingestion.py:57-58 | uploads of two lectures with different numbers never share a lecture title |
| IngestionHandler.FindDuplicate | bot/handlers/ingestion.py:181-190 | nothing is found exactly when no stored material matches the lookup; otherwise a matching material's id |
| IngestionHandler.StoredMaterialsMatch | bot/handlers/ingestion.py:225-259 | a stored upload answers its own lookup, and the lecture created for an attachment answers the attachment's lecture lookup |
| IngestionHandler.RememberKeepsOwnEntries | bot/handlers/ingestion.py:191-197 | remembering a prompt under its sender keeps every prompt under its own sender |
| IngestionHandler.ForgetKeepsOwnEntries | bot/handlers/ingestion.py:328-389 | forgetting a prompt keeps every prompt under its own sender |
| IngestionHandler.UserData.constructor | bot/handlers/ingestion.py:310 | no prompt is remembered at first |
| IngestionHandler.UserData.Remember | bot/handlers/ingestion.py:191-207 | the prompt is stored under the sender and message id; nothing else changes |
| IngestionHandler.UserData.Forget | bot/handlers/ingestion.py:328-389 | the prompt is gone from the sender's data; nothing else changes |
| IngestionHandler.AttendanceLog.constructor | bot/handlers/ingestion.py:162-164 | the attendance log starts empty |
| IngestionHandler.AttendanceLog.Record | bot/handlers/ingestion.py:164 | one attendance record is appended |
| IngestionHandler.HandleUpload | bot/handlers/ingestion.py:27-271 | a refused update changes nothing; an attendance sheet is filed under the group's term; an upload creates its year and lecturer, then remembers a duplicate prompt for the sender or stores the material (and the lecture of an attachment) with a pending ingestion that the approval list shows |
| IngestionHandler.Upload | bot/handlers/ingestion.py:174-271 | the year and lecturer ids are resolved first and the lookup uses them; then the duplicate or the store branch as above |
| IngestionHandler.FileUpload | bot/handlers/ingestion.py:181-271 | a duplicate remembers the prompt and stores nothing; otherwise the material and a pending ingestion are stored and the reply carries the ingestion id |
| IngestionHandler.StoreUpload | bot/handlers/ingestion.py:225-264 | the new materials are appended, the pending ingestion points at the upload's material, the lookup now finds it, and the approval list shows the ingestion |
| IngestionHandler.OpenIngestion | bot/handlers/ingestion.py:261-264 | one pending ingestion row with a fresh id is appended, pointing at the material |
| IngestionHandler.ResolveNames | bot/handlers/ingestion.py:174-177 | the year and lecturer tables gain the missing names, and the ids returned are those of the upload's year and lecturer |
| IngestionHandler.ResolveYear | bot/handlers/ingestion.py:174 | only the year table changes, and the id is that of the upload's year, or none without a year |
| IngestionHandler.ResolveLecturer | bot/handlers/ingestion.py:175-177 | only the lecturer table changes, and the id is that of the upload's lecturer, or none without one |
| IngestionHandler.StoreMaterials | bot/handlers/ingestion.py:225-259 | the upload's material gets the next id, and a lecture is added for an attachment whose lecture is not found |
| IngestionHandler.NewMaterialsFound | bot/handlers/ingestion.py:225-259 | once stored, the upload's lookup finds its own material, and an attachment's lecture lookup finds a lecture |
| IngestionHandler.AttachNewRow | bot/handlers/ingestion.py:264-358 | attaching the row just inserted rewrites that row only |
| IngestionHandler.HandleDuplicateDecision | bot/handlers/ingestion.py:303-389 | malformed data and an expired prompt change nothing; only the sender or the owner may act; cancel forgets the prompt and offers keep/delete; replace appends a pending `replace` ingestion on the old material and forgets the prompt; since prompts sit in the presser's own data, the not-the-sender answer never happens |
| IngestionHandler.CancelChoice | bot/handlers/ingestion.py:392-418 | malformed data is refused; the choice is taken exactly when the presser is the named user or the owner; "del" deletes the original and "keep" does not |
| IngestionHandler.CancelOffersWorkingChoice | bot/handlers/ingestion.py:335-418 | the keep and delete buttons the cancel offers work for the user who cancelled |
| Ingestions.MaterialOf | bot/db/ingestions.py:46 | the joined material has the ingestion's material id; there is none exactly when the ingestion has no material or no material has that id |
| Ingestions.ListPendingIngestions | bot/db/ingestions.py:38-51 | a row is listed exactly when it views a pending ingestion whose material exists, and the list is those ingestions reordered by creation time |
| Ingestions.PendingMembers | bot/db/ingestions.py:44-48 | the listed views are exactly the views of the pending ingestions whose material exists |
| Ingestions.GetIngestionMaterial | bot/db/ingestions.py:54-81 | a result joins an ingestion with that id to its existing material; with unique ids, none is returned exactly when that ingestion or its material is missing |
| Ingestions.IngestionStore.constructor | bot/db/ingestions.py:6-24 | the table starts empty and valid |
| Ingestions.IngestionStore.InsertIngestion | bot/db/ingestions.py:6-24 | a record with a fresh id, no material and the creation time is appended, and a lookup by that id finds it |
| Ingestions.IngestionStore.Rewrite | bot/db/ingestions.py:27-90 | only the record with that id is rewritten; ids and order are kept |
| Ingestions.IngestionStore.AttachMaterial | bot/db/ingestions.py:27-35 | only the material and status of that record change |
| Ingestions.IngestionStore.UpdateIngestionStatus | bot/db/ingestions.py:84-90 | only the status of that record changes |
| Ingestions.IngestionStore.DeleteIngestion | bot/db/ingestions.py:93-96 | that record is gone and every other record stays, in order |
| Ingestions.IngestionStore.DeleteOldPendingIngestions | bot/db/ingestions.py:99-109 | exactly the pending records created more than `hours` hours before now are deleted, every other record stays, and the count is the number removed |
| Ingestions.AttachedPendingIsListed | bot/db/ingestions.py:27-47 | a record attached to an existing material is listed as pending exactly when its new status is pending |
| Keyboards.SectionLabelsInvert | bot/keyboards/constants.py:18-25 | `LABEL_TO_SECTION` inverts `SECTION_LABELS` in both directions |
| Keyboards.CategoryLabelsInvert | bot/keyboards/constants.py:27-43 | each category's caption reads back as that category |
| Keyboards.LabelToCategoryInvert | bot/keyboards/constants.py:27-43 | each caption read back names a category with that caption |
| Keyboards.ChunkShape | bot/keyboards/builders.py:28-34 | fixed-width rows hold the items in order, each non-empty and at most that wide, all but the last exactly that wide |
| Keyboards.ChunkFlatten | bot/keyboards/builders.py:28-34 | the rows read in order are the items |
| Keyboards.ChunkWidths | bot/keyboards/builders.py:28-34 | each row is non-empty and at most the width; all but the last are full |
| Keyboards.ChunkAppend | bot/keyboards/builders.py:28-34 | cutting items after whole rows gives the rows of each part |
| Keyboards.OneRow | bot/keyboards/builders.py:33-34 | at most `cols` items make one row |
| Keyboards.RowsShape | bot/keyboards/builders.py:24-35 | `_rows` drops the empty items, keeps the others in order, and its rows are non-empty and at most `cols` long |
| Keyboards.RowsOfPresent | bot/keyboards/builders.py:26 | items that are all non-empty pass through `_rows` in order |
| Keyboards.FillStep | bot/keyboards/builders.py:29-32 | one more item joins the current row, which closes when it has `cols` items |
| Keyboards.FillDone | bot/keyboards/builders.py:33-34 | after the last item, the closed rows plus the leftover row are the fixed-width rows |
| Keyboards.FillEnd | bot/keyboards/builders.py:33-35 | after the last item, the loop's rows are those of `_rows` |
| Keyboards.Rows | bot/keyboards/builders.py:24-35 | the loop computes `_rows` |
| Keyboards.LastRow | bot/keyboards/builders.py:33-34 | the leftover row is the last row |
| Keyboards.RowStep | bot/keyboards/builders.py:31-32 | a row just filled is appended to the rows so far |
| Keyboards.WithFooter | bot/keyboards/builders.py:38-237 | a list of non-empty captions laid out by `_rows` with fixed rows after it shows the captions in order, then the fixed rows |
| Keyboards.TermMenu | bot/keyboards/builders.py:75-89 | each option appears exactly when its flag is set, advanced search exactly when any flag is set, rows of one or two, and the last row is `[BACK, BACK_TO_LEVELS]` |
| Keyboards.TermOptionsIff | bot/keyboards/builders.py:75-85 | each option is in the list exactly when its flag is set |
| Keyboards.MainMenu | bot/keyboards/builders.py:92-106 | four fixed rows, and a fifth row with the admins button exactly for an admin |
| Keyboards.SubjectSectionsMenu | bot/keyboards/builders.py:109-114 | a caption is shown exactly when it is the label of a listed section code; codes without a label are dropped; back is last |
| Keyboards.SectionCaptions | bot/keyboards/builders.py:111 | the captions of the labelled sections are non-empty and are exactly the labels of the listed codes |
| Keyboards.SectionFiltersMenu | bot/keyboards/builders.py:117-135 | the year and lecturer filters appear exactly when those exist, the lecture list exactly when lectures exist, and the last two rows are fixed |
| Keyboards.LecturerFilterMenu | bot/keyboards/builders.py:164-178 | the year choice and the lecture list appear exactly when they exist, in one row, then back |
| Keyboards.NoCaptionIsLectures | bot/keyboards/constants.py:16-41 | no category caption is the lectures button |
| Keyboards.YearCategoryMenu | bot/keyboards/builders.py:181-197 | the lectures button leads when lectures exist; every category shows its label, or its own code when it has none; the last two rows are fixed |
| Keyboards.LecturesButtonShown | bot/keyboards/builders.py:186-192 | the lectures button shows exactly when lectures exist or a category has that very name |
| Keyboards.CategoryCaptionsShown | bot/keyboards/builders.py:185-192 | every category's caption is shown, in rows of one or two |
| Keyboards.CategoryLabelsPresent | bot/keyboards/constants.py:27-41 | no category caption is empty |
| Keyboards.CaptionsShown | bot/keyboards/builders.py:24-35 | items captioned and laid out two to a row show every non-empty caption |
| Keyboards.ExamMenu | bot/keyboards/builders.py:240-251 | mid-term exactly when it exists, final exactly when it exists, then back |
| Linking.GetGroup | bot/repo/linking.py:58-76 | the row found has that chat id; none is found exactly when no row has it |
| Linking.GetGroupUnique | bot/repo/linking.py:58-76 | with one row per chat, each row is found by its own chat id |
| Linking.GetGroupInfo | bot/db/groups.py:6-13 | level and term of a row of that chat; none exactly when no row has it |
| Linking.GetGroupIdByChat | bot/db/topics.py:6-13 | id, level and term of a row of that chat; none exactly when no row has it |
| Linking.GetTopic | bot/repo/linking.py:127-146 | the row found has that group and thread; none exactly when no row has them |
| Linking.GetBinding | bot/db/topics.py:16-31 | a binding exactly when a topic of that chat's group and thread has an existing group and subject; it carries the topic's subject, the subject's name and the topic's section text |
| Linking.BindReadBack | bot/db/topics.py:16-67 | a topic row of a chat's group whose subject exists survives the orphan cleanup and is read back by `get_binding` |
| Linking.GroupUpsert | bot/repo/linking.py:33-44 | the upsert on the chat id keeps one row per chat and the ids below the next id, and the chat reads back as the updated or the new row |
| Linking.TopicUpsert | bot/repo/linking.py:80-123 | the upsert on (group, thread) keeps one row per pair and the ids below the next id, and the pair reads back as the updated or the new row |
| Linking.ChatStore.constructor | bot/repo/linking.py:7 | both tables start empty and valid |
| Linking.ChatStore.UpsertGroupRow | bot/repo/linking.py:33-54 | the id returned is the existing row's, or the new row's with the next id moving on; the chat then reads back |
| Linking.ChatStore.UpsertGroup | bot/repo/linking.py:7-54 | one row per chat, whose title, level, term and section become the arguments; the id is the chat's row's |
| Linking.ChatStore.UpsertGroupInfo | bot/db/groups.py:16-29 | title, level and term become the arguments; an existing row keeps its section and a new one has none |
| Linking.ChatStore.UpsertTopicRow | bot/repo/linking.py:80-123 | the id returned is the existing row's, or the new row's with the next id moving on; the pair then reads back |
| Linking.ChatStore.UpsertTopic | bot/repo/linking.py:80-123 | one row per (group, thread), whose subject and section id become the arguments, the section text kept |
| Linking.ChatStore.CleanupOrphanTopics | bot/db/topics.py:58-67 | exactly the topics whose group or subject is gone are deleted; the others stay in order |
| Linking.ChatStore.Bind | bot/db/topics.py:34-55 | without a group for the chat nothing changes and `ValueError` is raised; otherwise the thread's topic gets that subject and section text, the orphans are deleted, and the binding reads back when the subject exists |
| Linking.UpsertGroupStable | bot/repo/linking.py:33-54 | upserting a chat that has a row keeps its id and the table's size |
| Materials.GetMaterial | bot/repo/materials.py:97-115 | the row found has that id; none exactly when no row has it |
| Materials.GetMaterialSource | bot/db/materials.py:104-112 | the source chat, topic and message of the material with that id, or none exactly when there is no such material |
| Materials.FindByHash | bot/repo/materials.py:163-181 | a row found has that content hash; none exactly when no row has it |
| Materials.FindExact | bot/db/materials.py:115-152 | none exactly when no row matches the `WHERE` clause; otherwise the id of the first matching row |
| Materials.ExactMatchOwnKey | bot/db/materials.py:127-149 | a material matches its own columns, and a key without lecture number or hash also matches materials that differ only there |
| Materials.FindExactAfterInsert | bot/db/materials.py:27-152 | after an insert, `find_exact` with the new row's columns finds the new row, or an earlier match |
| Materials.MaterialStore.constructor | bot/db/materials.py:27 | the table starts empty and valid |
| Materials.MaterialStore.InsertMaterial | bot/db/materials.py:27-78 | a row with the given columns is appended under a fresh id, and `get_material` finds it |
| Materials.MaterialStore.UpdateMaterialStorage | bot/db/materials.py:81-94 | only the storage chat, message and file id of that material change (the file id to `None` when none is given) |
| Materials.MaterialStore.DeleteMaterial | bot/db/materials.py:97-101 | that row is gone, the others stay in order |
| Materials.StorageUpdateReadBack | bot/repo/materials.py:119-143 | the updated row reads back with the new storage and its other columns, and other rows read back unchanged |
| Materials.YearIdByName | bot/db/materials.py:158-162 | an id is found exactly when a year has that name, and it is that row's |
| Materials.LecturerIdByName | bot/db/materials.py:182-186 | an id is found exactly when a lecturer has that name, and it is that row's |
| Materials.YearAppended | bot/db/materials.py:165-168 | a new year name appended under the next id keeps ids distinct and reads back as that id |
| Materials.LecturerAppended | bot/db/materials.py:189-195 | a new lecturer name appended under the next id keeps ids distinct and reads back as that id |
| Materials.NameStore.constructor | bot/db/years.py:6 | both tables start empty and valid |
| Materials.NameStore.EnsureYearId | bot/db/years.py:6-16 | an existing name keeps its id and the table; a new one is appended under a fresh id; the name then reads back as the id returned |
| Materials.NameStore.EnsureLecturerId | bot/db/lecturers.py:6-19 | an existing lecturer keeps its id and role; a new one is appended with the given role; the name then reads back as the id returned |
| Materials.YearGetOrCreateStable | bot/db/materials.py:171-179 | once a name is added it reads back as its id, and other names keep theirs |
| NavMenu.GroupsMembers | bot/navigation/nav_builder.py:56-81 | a button comes from the group of one of the sections looped over, when the subject has materials |
| NavMenu.CardButtonsMembers | bot/navigation/nav_builder.py:66-70 | a card button is produced exactly for a card shown empty or with a material of its category |
| NavMenu.ItemTypeButtonsMembers | bot/navigation/nav_builder.py:76-81 | an item-type button is produced exactly for an item type with materials in the section |
| NavMenu.CardKinds | bot/navigation/nav_builder.py:70 | card buttons have kind `card` |
| NavMenu.ItemTypeKinds | bot/navigation/nav_builder.py:81 | item-type buttons have kind `item_type` |
| NavMenu.SectionGroupMembers | bot/navigation/nav_builder.py:57-81 | a section's group holds its own button, its shown cards' and its item types' with materials, and is empty without materials |
| NavMenu.SectionGroupShape | bot/navigation/nav_builder.py:58-81 | a section's group is empty exactly when the section has no materials; otherwise it opens with the section's button and no other button in it is a section button |
| NavMenu.SubjectHasMaterials | bot/navigation/nav_builder.py:49-58 | a section with materials means the subject has materials, so the early return does not hide it |
| NavMenu.MenuMembers | bot/navigation/nav_builder.py:49-83 | a button is in the menu exactly when it is in the group of one of the subject's sections |
| NavMenu.SectionButtonShown | bot/navigation/nav_builder.py:55-60 | a section button is shown exactly for the subject's enabled sections that have materials |
| NavMenu.CardButtonShown | bot/navigation/nav_builder.py:63-70 | a card button is shown exactly for the cards of a shown section that are shown empty or have a material of their category |
| NavMenu.CardButtonOrigin | bot/navigation/nav_builder.py:63-70 | every card button shown comes from such a card |
| NavMenu.CardButtonListed | bot/navigation/nav_builder.py:63-70 | every such card's button is shown |
| NavMenu.ItemTypeButtonShown | bot/navigation/nav_builder.py:73-81 | an item-type button is shown exactly for the item types of a shown section that have materials there, named `section-itemtype` |
| NavMenu.ItemTypeButtonOrigin | bot/navigation/nav_builder.py:73-81 | every item-type button shown comes from such an item type |
| NavMenu.ItemTypeButtonListed | bot/navigation/nav_builder.py:73-81 | every such item type's button is shown |
| NavMenu.BuildMenu | bot/navigation/nav_builder.py:34-83 | the loops compute the menu: per section with materials, its button, then its cards', then its item types' |
| NavMenu.GroupsStep | bot/navigation/nav_builder.py:56 | the loop over sections advances by one section's group |
| NavMenu.GroupOf | bot/navigation/nav_builder.py:57-81 | one turn of the loop computes the section's group |
| NavMenu.ShownCards | bot/navigation/nav_builder.py:66-70 | the loop over the cards computes the shown card buttons |
| NavMenu.ShownItemTypes | bot/navigation/nav_builder.py:76-81 | the loop over the item types computes the shown item-type buttons |
| NavStacks.Top | bot/navigation/nav_stack.py:45-49 | no top exactly for an empty stack; otherwise a node of the stack |
| NavStacks.Titles | bot/navigation/nav_stack.py:58 | the titles shown are non-empty, at most one per node |
| NavStacks.JoinSnoc | bot/navigation/nav_stack.py:58 | joining one more part adds the separator and the part, or is the part alone |
| NavStacks.PathAfterPush | bot/navigation/nav_stack.py:35-58 | pushing a titled node extends the path by ` / ` and its title (or starts it); an untitled node leaves the path as it was |
| NavStacks.NavStack.constructor | bot/navigation/nav_stack.py:25-31 | the list stored under `nav_stack` is reused; anything else is replaced by an empty stack |
| NavStacks.NavStack.Push | bot/navigation/nav_stack.py:35-37 | the node is appended on top |
| NavStacks.NavStack.Pop | bot/navigation/nav_stack.py:39-43 | the top node is returned and removed; an empty stack gives `None` and stays empty |
| NavStacks.NavStack.Clear | bot/navigation/nav_stack.py:51-53 | the stack is empty |
| NavStacks.PushThenPop | bot/navigation/nav_stack.py:35-43 | a push then a pop gives the pushed node back and leaves the stack as it was |
| NavStacks.PushThenPeek | bot/navigation/nav_stack.py:35-49 | after a push the pushed node is on top |
| NavTree.ParsePart | bot/handlers/navigation_tree.py:113 | a piece becomes a number exactly when it is all decimal digits, and is kept as text otherwise |
| NavTree.ParseId | bot/handlers/navigation_tree.py:111-116 | a single piece is returned alone; otherwise a tuple of at least two pieces |
| NavTree.ParseIdJoin | bot/handlers/navigation_tree.py:111-116 | pieces without dashes or colons, joined by dashes, parse back piece by piece |
| NavTree.ColonIsDash | bot/handlers/navigation_tree.py:112 | a colon separates pieces exactly as a dash does |
| NavTree.NumeralPart | bot/handlers/navigation_tree.py:113 | the numeral of a natural number parses back as that number and holds no separator |
| NavTree.ItemTypeIdentParses | bot/handlers/navigation_tree.py:111-116 | the `{section}-{item type}` id of an item-type button parses as the pair of the two ids |
| NavTree.ParseIdSingle | bot/handlers/navigation_tree.py:114-115 | `"5"` is the number 5 and `"abc"` stays text |
| NavTree.ParseIdTwo | bot/handlers/navigation_tree.py:111-116 | two pieces joined by a dash or a colon give the pair of the parsed pieces |
| NavTree.LastOfKind | bot/handlers/navigation_tree.py:38-50 | none when no node has that kind; otherwise the ident of a node of that kind with none of that kind above it |
| NavTree.LastOfKindSnoc | bot/handlers/navigation_tree.py:39-49 | one more node on top changes the answer only for its own kind |
| NavTree.ExtractedSnoc | bot/handlers/navigation_tree.py:39-49 | one more node on top replaces the value of its own kind when it is one of the five, and nothing else |
| NavTree.ExtractState | bot/handlers/navigation_tree.py:35-50 | the loop returns, for each of the five kinds, the ident of its last node on the stack |
| NavTree.PopAll | bot/handlers/navigation_tree.py:128-130 | popping until `pop` returns nothing leaves the stack empty |
| NavTree.SplitFirst | bot/handlers/navigation_tree.py:186-240 | the text is the part before the first separator, the separator and the rest, and the first part holds no separator |
| NavTree.FindLabel | bot/handlers/navigation_tree.py:262-266 | the caption of the first button with that kind and id; `""` exactly when no button has them |
| NavTree.FirstIsAt | bot/handlers/navigation_tree.py:262-266 | the label is the caption of the first matching button |
| NavTree.NavCallback | bot/handlers/navigation_tree.py:140-396 | `back` on an empty stack shows the main menu; `back` pops one node; a selection pushes the node of its kind, parsed id and label; content selections leave the stack alone; any failed render leaves the stack as it was |
| NavTree.PrefixKind | bot/handlers/navigation_tree.py:185-240 | a kind without a colon that starts the data is the only kind the prefix tests can see |
| NavTree.NotSpecial | bot/handlers/navigation_tree.py:149-236 | `kind:ident` for an ordinary kind is neither `back` nor a page, card or section callback |
| NavTree.ChildButtonSelects | bot/keyboards/builders/paginated.py:54 | the handler reads back the kind and the id from a child button's `nav:{kind}:{ident}` data |
| Paginated.PerPage | bot/keyboards/builders/paginated.py:35-40 | the page size is at least one: the one asked for, else `PER_PAGE`; a size that is not positive puts every child on one page |
| Paginated.PageCount | bot/keyboards/builders/paginated.py:41 | there is always at least one page |
| Paginated.PageCountBounds | bot/keyboards/builders/paginated.py:41 | no children make one page; otherwise the pages hold all children and one page fewer would not |
| Paginated.Clamp | bot/keyboards/builders/paginated.py:42 | the page shown is between 1 and the page count, and a page in range is shown as asked |
| Paginated.PageStartInRange | bot/keyboards/builders/paginated.py:44-45 | the page's first child exists when there are children, and every page but the last is full |
| Paginated.PageSize | bot/keyboards/builders/paginated.py:44-52 | a page shows at most `per_page` children, every page but the last exactly `per_page`, and at least one when there are children |
| Paginated.PageOf | bot/keyboards/builders/paginated.py:41-45 | child `k` falls on page `k / per_page + 1`, which exists, between that page's start and the next one's |
| Paginated.ChildOnItsPage | bot/keyboards/builders/paginated.py:41-52 | every child is shown: child `k` is at place `k % per_page` of page `k / per_page + 1` |
| Paginated.LayOut | bot/keyboards/builders/paginated.py:50-60 | the loop puts the page's buttons, in order, into rows of `row_width`, keeping a part-filled last row |
| Paginated.BuildChildrenKeyboard | bot/keyboards/builders/paginated.py:11-76 | the keyboard is the child rows, then the previous/next row when there is one, then the back row when asked for |
| Paginated.ChildRows | bot/keyboards/builders/paginated.py:47-60 | the child rows hold the page's buttons in order, none empty and none wider than `row_width` (at least one) |
| Paginated.PrevButtonShown | bot/keyboards/builders/paginated.py:63-66 | a `◀` button to the page before is shown exactly on pages after the first |
| Paginated.NextButtonShown | bot/keyboards/builders/paginated.py:67-70 | a `▶` button to the page after is shown exactly on pages before the last |
| Paginated.PageButtonRoundTrip | bot/keyboards/builders/paginated.py:65-69 | the tree's handler reads a page button's data back as a request for that page |
| Paginated.FiveChildrenTwoPerPage | bot/keyboards/builders/paginated.py:41-45 | five children two to a page make three pages, the last holding the fifth child alone, and a page past the end shows the last |
| Rbac.StoreScope | bot/repo/rbac.py:101 | a stored scope is never SQL `NULL`; it is the JSON text `null` exactly when no scope was given |
| Rbac.ScopeRowsMembers | bot/repo/rbac.py:123-132 | the join returns exactly the scopes of the grants of the key to an enabled role assigned to the user |
| Rbac.Decide | bot/repo/rbac.py:133-143 | `has_permission` as written: false exactly when no row is joined, or a scope is asked and no row decides it; it raises only on a scoped query over a JSON `null` row |
| Rbac.DecideIntended | bot/repo/rbac.py:107-143 | as intended: true exactly when a grant is joined and, with a query scope, some grant has no scope or agrees with every key of the query |
| Rbac.AsWrittenAnswersAsIntended | bot/repo/rbac.py:133-143 | whenever `has_permission` answers it answers as intended, and without a JSON `null` row it always answers |
| Rbac.UnscopedGrantAllows | bot/repo/rbac.py:86-139 | a grant set without a scope allows every query scope under the intended reading |
| Rbac.GrantDecides | bot/repo/rbac.py:122-136 | without a query scope the answer is whether some enabled role of the user holds the key; without such a role the answer is always false |
| Rbac.NullScopeCrashes | bot/repo/rbac.py:98-141 | a user whose role was granted a key with no scope gets an `AttributeError` instead of true for a scoped query |
| Rbac.UsersWithTag | bot/repo/rbac.py:147-170 | each user holding an enabled role with the tag, exactly those, each once |
| Rbac.AssignIdempotent | bot/repo/rbac.py:58-61 | assigning the same role twice is assigning it once, and the pair is present |
| Rbac.AssignedUserIsTagged | bot/repo/rbac.py:58-170 | a user assigned an enabled tagged role is among that tag's users |
| Rbac.RbacStore.constructor | bot/repo/rbac.py:1-6 | the three tables start empty |
| Rbac.RbacStore.CreateRole | bot/repo/rbac.py:15-42 | a role under a fresh id with the tags given (or none) and the enabled flag as 1 or 0; nothing else changes |
| Rbac.RbacStore.AssignRole | bot/repo/rbac.py:46-62 | the pair is present afterwards, once, and nothing else changes |
| Rbac.RbacStore.RevokeRole | bot/repo/rbac.py:66-82 | that pair is gone, every other assignment stays, and nothing else changes |
| Rbac.RbacStore.SetPermission | bot/repo/rbac.py:86-103 | the grant of that role and key is replaced: exactly one remains, it holds the new scope, every other grant stays |
| Rbac.RbacStore.HasPermission | bot/repo/rbac.py:107-143 | the loop returns `Decide` over the joined scopes |
| Rbac.RbacStore.HasPermissionIntended | bot/repo/rbac.py:107-143 | the loop with a JSON `null` read as no scope returns the intended answer |
| Rbac.RbacStore.Broadcast | bot/repo/rbac.py:174-192 | one send of the message to each tagged user, once each, and the count of users |
| ViewAccess.CanView | bot/db/rbac.py:7-24 | an absent user may view anything; a user may view exactly when an active admin row exists for them |
| ViewAccess.CanViewIsActiveAdmin | bot/db/rbac.py:7-24 | the answer does not depend on the item, and for a user it is whether `get_admin` finds them |
| Sensitivity.Content | bot/policies/sensitivity.py:46 | the text alone when there is no file name; the file name alone when the text is empty; otherwise both, joined by a space |
| Sensitivity.KeywordHits | bot/policies/sensitivity.py:49-51 | at most one hit per keyword |
| Sensitivity.PatternHits | bot/policies/sensitivity.py:52-54 | at most one hit per pattern |
| Sensitivity.Threshold | bot/policies/sensitivity.py:55 | the threshold is 1 exactly in a `clinical` or `case_study` section, and 2 elsewhere |
| Sensitivity.SensitivityPolicy.constructor | bot/policies/sensitivity.py:17-31 | a file that is missing or fails to load leaves both lists empty; otherwise the keywords are lower-cased and the patterns kept |
| Sensitivity.SensitivityPolicy.IsSensitive | bot/policies/sensitivity.py:33-56 | the loops count the keywords in the lower-cased content and the matching patterns, and compare the count with the section's threshold |
| Sensitivity.NothingLoadedNothingSensitive | bot/policies/sensitivity.py:23-56 | with nothing loaded nothing is sensitive, in any section |
| Sensitivity.ClinicalIsStricter | bot/policies/sensitivity.py:55-56 | what is sensitive in any section is sensitive in a clinical one, where a single hit is enough |
| Sensitivity.KeywordCounted | bot/policies/sensitivity.py:49-51 | a keyword contained in the lowered content is counted |
| Sensitivity.LowerAppend | bot/policies/sensitivity.py:47 | lower-casing works character by character |
| Sensitivity.ContentHoldsText | bot/policies/sensitivity.py:46-47 | whatever the lowered text contains, the lowered content contains, whatever the file name |
| Sensitivity.KeywordInTextIsHit | bot/policies/sensitivity.py:30-51 | a configured keyword written in the text in any mix of case is a hit, whatever the file name |
| Sensitivity.MoreKeywordsMoreHits | bot/policies/sensitivity.py:49-51 | another keyword can only add hits |
| Session.EntityLabel | bot/parser/session.py:38-39 | the item type's label, or `""` when there is no such item type |
| Session.LabelToken | bot/parser/session.py:41-42 | the label without a leading article `ال`, one character per character kept, and no spaces |
| Session.Heads | bot/parser/session.py:43 | the heads the pattern can start with, in the order the regex engine tries them: with `#` only when the text starts with one, the bare token before the one with the article |
| Session.FirstMatch | bot/parser/session.py:43-45 | a match exactly when some head matches, and then the groups of the first head that does |
| Session.IdentNumber | bot/parser/session.py:50-54 | after stripping and translating Arabic-Indic digits, a decimal identifier is its value and anything else is looked up as an ordinal word |
| Session.ParseNumberAndTitle | bot/parser/session.py:45-59 | with a match, the number of the identifier and the stripped title; without one, no number and the text without leading `#`s as the title, none when that is empty |
| Session.ParseSession | bot/parser/session.py:24-65 | the label is the item type's; `E-NO-SESSION` exactly when the item type requires a lecture and no number (or 0) was found, and then no number; the title is always the one read |
| Session.AcceptsAllSpellings | bot/parser/session.py:32-43 | the tag matches with or without `#` and with or without the article, whenever the rest is an identifier with an optional `: title` |
| Session.HeadIndex | bot/parser/session.py:43 | each of the four spellings is among the heads tried for a text that starts with it |
| Session.NoSessionOnlyWhenRequired | bot/parser/session.py:61-65 | an item type that does not require a lecture never reports `E-NO-SESSION`; a non-zero number found parses without error and is kept |
| Session.LectureExample | tests/test_session_parser.py:10-14 | with the item type `محاضرة` requiring a lecture, `#المحاضرة_5: المقدمة` parses as lecture 5 titled `المقدمة` with label `محاضرة` and no error |
| NavState.TypeKeys | bot/navigation/state.py:17-33 | each node type stores at most one data key |
| NavState.IndexOfType | bot/navigation/state.py:62-71 | none exactly when no entry has that type; otherwise the first entry of that type |
| NavState.Before | bot/navigation/state.py:68-72 | a prefix of the stack in which no entry has that type |
| NavState.ViewedShape | bot/navigation/state.py:102-104 | choosing a type keeps the entries below its first entry and puts the chosen entry on top: whatever was at or above that level is gone |
| NavState.ViewedIdempotent | bot/navigation/state.py:102-104 | choosing the same entry twice is choosing it once |
| NavState.TruncateIdempotent | bot/navigation/state.py:68-72 | truncating twice after the same type is truncating once |
| NavState.ViewedKeepsUnique | bot/navigation/state.py:61-104 | a stack with one entry per type keeps that property when a level is chosen |
| NavState.ViewedLabel | bot/navigation/state.py:86-104 | after choosing a level or any other type, its label reads back as the caption chosen |
| NavState.ViewedThenBack | bot/navigation/state.py:95-104 | going back from a level just chosen leaves the entries below it |
| NavState.NavigationState.constructor | bot/navigation/state.py:42-47 | a stored dict with both entries is reused; anything else is replaced by an empty state |
| NavState.NavigationState.UpsertStack | bot/navigation/state.py:61-66 | the first entry of that type gets the new label, or the entry is appended |
| NavState.NavigationState.TruncateAfter | bot/navigation/state.py:68-72 | everything above the first entry of that type is removed |
| NavState.NavigationState.DropKeys | bot/navigation/state.py:99-151 | exactly those keys are gone from the data, and the stack is unchanged |
| NavState.NavigationState.Reset | bot/navigation/state.py:76-78 | the stack and the data are empty |
| NavState.NavigationState.BackToLevels | bot/navigation/state.py:80-81 | the stack and the data are empty |
| NavState.NavigationState.GetIds | bot/navigation/state.py:83-84 | the stored level and term ids, present exactly when stored |
| NavState.NavigationState.GetLabels | bot/navigation/state.py:86-93 | the loop returns the labels of the last level and last term entries |
| NavState.NavigationState.BackOne | bot/navigation/state.py:95-100 | nothing on an empty stack; otherwise the top entry is removed with the data key its type stores |
| NavState.NavigationState.PushView | bot/navigation/state.py:102-104 | the stack is the chosen entry on top of what was below it, and the data is unchanged |
| NavState.NavigationState.SetLevel | bot/navigation/state.py:107-110 | the level is chosen and its id stored |
| NavState.NavigationState.SetTerm | bot/navigation/state.py:112-115 | the term is chosen and its id stored |
| NavState.NavigationState.SetSubject | bot/navigation/state.py:117-120 | the subject is chosen and its id stored |
| NavState.NavigationState.SetSection | bot/navigation/state.py:122-125 | the section is chosen and stored |
| NavState.NavigationState.SetYear | bot/navigation/state.py:127-130 | the year is chosen and its id stored |
| NavState.NavigationState.SetLecturer | bot/navigation/state.py:132-135 | the lecturer is chosen and its id stored |
| NavState.NavigationState.SetLecture | bot/navigation/state.py:137-140 | the lecture's title is both its caption and its stored value |
| NavState.NavigationState.GoLevelsList | bot/navigation/state.py:143-146 | the state holds only the levels list entry and no data |
| NavState.NavigationState.GoSubjectList | bot/navigation/state.py:148-153 | the stack is cut after the term with the subject list on top, and the choices below the term are forgotten |
| NavState.ChooseThenBack | bot/navigation/state.py:95-120 | choosing a subject and going back restores the stack below it and forgets its id |
| Subjects.LevelIdByName | bot/db/subjects.py:26-30 | an id exactly when a level of that name exists, and then a row with that id and name |
| Subjects.TermIdByName | bot/db/subjects.py:33-37 | an id exactly when a term of that name exists, and then a row with that id and name |
| Subjects.SubjectIdByName | bot/db/subjects.py:186-199 | an id exactly when a subject of that level, term and name exists, and then that subject's id |
| Subjects.SubjectByTermAndName | bot/db/subjects.py:112-116 | a subject of that term and name, none exactly when there is no such subject |
| Subjects.ModeFor | bot/db/subjects.py:135 | the mode is `theory_only` exactly when theory only is asked for |
| Subjects.GetLevels | bot/db/subjects.py:10-23 | the levels with a subject that has an available material, exactly those, by id |
| Subjects.GetTermsByLevel | bot/db/subjects.py:147-162 | the terms holding a subject of that level with an available material, exactly those, by id |
| Subjects.GetSubjectsByLevelAndTerm | bot/db/subjects.py:165-183 | the `(id, name)` of the subjects of that level and term with an available material, exactly those, by id |
| Subjects.CountSubjects | bot/db/subjects.py:200-214 | the number of listed subjects, each counted once |
| Subjects.TermFeatureFlags | bot/db/subjects.py:217-250 | each flag holds exactly when the term has a listed subject, an available syllabus, or an available external link |
| Subjects.GetAvailableSectionsForSubject | bot/db/subjects.py:253-267 | the known sections of the subject's available materials, exactly those, each once |
| Subjects.SubjectStore.constructor | bot/db/subjects.py:10-23 | the three tables start empty |
| Subjects.SubjectStore.InsertLevel | bot/db/subjects.py:40-44 | a name already there leaves the table alone; otherwise a level is appended; either way the name is found afterwards |
| Subjects.SubjectStore.InsertTerm | bot/db/subjects.py:47-51 | a name already there leaves the table alone; otherwise a term is appended; either way the name is found afterwards |
| Subjects.SubjectStore.GetOrCreateLevel | bot/db/subjects.py:54-62 | the existing id with nothing inserted, otherwise a new level; the name then reads back as the id returned |
| Subjects.SubjectStore.GetOrCreateTerm | bot/db/subjects.py:65-73 | the existing id with nothing inserted, otherwise a new term; the name then reads back as the id returned |
| Subjects.SubjectStore.InsertSubject | bot/db/subjects.py:75-88 | one subject row is appended with the values given |
| Subjects.SubjectStore.GetOrCreate | bot/db/subjects.py:110-131 | the existing subject of that term and name; without one, an error when no level is given, else a new `AUTO` subject in `theory_only` mode |
| Subjects.SubjectStore.SetTheoryOnly | bot/db/subjects.py:91-141 | only the rows with that id change, and only their mode |
| Subjects.GetOrCreateLevelIdempotent | bot/db/subjects.py:54-62 | once a level is inserted, asking for its name gives its id |
| Subjects.TheoryOnlyReadBack | bot/db/subjects.py:131-135 | the theory-only flag read back is the one written |
| Taxonomy.GetSection | bot/repo/taxonomy.py:36-66 | the row with that id in the language asked for, unless it is disabled and disabled rows were not asked for; none exactly when no such visible row exists |
| Taxonomy.GetSections | bot/repo/taxonomy.py:98-121 | the visible sections, exactly those, ordered by `sort_order`, and none disabled unless asked for |
| Taxonomy.GetCard | bot/repo/taxonomy.py:156-184 | the card with that id, unless it is disabled and disabled rows were not asked for; none exactly when no such visible card exists |
| Taxonomy.GetCards | bot/repo/taxonomy.py:216-250 | the visible cards of the section asked for (or of all), exactly those, ordered by `sort_order`; a card with a `NULL` section matches no `section_id=?` |
| Taxonomy.GetItemType | bot/repo/taxonomy.py:287-316 | the item type with that id, unless it is disabled and disabled rows were not asked for; none exactly when no such visible row exists |
| Taxonomy.GetItemTypes | bot/repo/taxonomy.py:348-379 | the visible item types, exactly those, ordered by `sort_order` |
| Taxonomy.GetItemTypesForSection | bot/repo/taxonomy.py:405-432 | the section's linked item types, both the link and the item type enabled unless disabled rows are asked for, exactly those, ordered by the link's `sort_order` |
| Taxonomy.GetSectionsForSubject | bot/repo/taxonomy.py:466-489 | the sections enabled for the subject, both the enablement and the section enabled unless disabled rows are asked for, exactly those, ordered by the enablement's `sort_order` |
| Taxonomy.UpsertEnable | bot/repo/taxonomy.py:455-460 | the row of that subject and section holds the new flag and order, or is appended; every other row stays and none is added |
| Taxonomy.UpsertLink | bot/repo/taxonomy.py:393-400 | an existing link of that section and item type keeps its id and takes the new flag and order, or a link with the next id is appended; every other link stays |
| Taxonomy.UpsertLinkKeys | bot/repo/taxonomy.py:383-401 | the upsert keeps the link ids and the (section, item type) pairs distinct, and the ids below the next id |
| Taxonomy.TaxonomyStore.constructor | bot/repo/taxonomy.py:10-32 | the five tables start empty |
| Taxonomy.TaxonomyStore.CreateSection | bot/repo/taxonomy.py:10-32 | a row under a fresh id is appended and read back as `get_section` with disabled rows included; no other table changes |
| Taxonomy.TaxonomyStore.UpdateSection | bot/repo/taxonomy.py:70-85 | no fields change nothing; otherwise the named columns of that row change; the row is read back either way |
| Taxonomy.TaxonomyStore.DeleteSection | bot/repo/taxonomy.py:89-94 | the rows with that id are gone and the id reads back as nothing |
| Taxonomy.TaxonomyStore.CreateCard | bot/repo/taxonomy.py:123-152 | a card under a fresh id, with the given section or `NULL`, is appended and read back; no other table changes |
| Taxonomy.TaxonomyStore.UpdateCard | bot/repo/taxonomy.py:188-203 | no fields change nothing; otherwise the named columns of that card change (a named `section_id` may be set to `NULL`); the card is read back either way |
| Taxonomy.TaxonomyStore.DeleteCard | bot/repo/taxonomy.py:207-212 | the cards with that id are gone and the id reads back as nothing |
| Taxonomy.TaxonomyStore.CreateItemType | bot/repo/taxonomy.py:252-283 | an item type under a fresh id is appended and read back; no other table changes |
| Taxonomy.TaxonomyStore.UpdateItemType | bot/repo/taxonomy.py:320-335 | no fields change nothing; otherwise the named columns of that item type change; it is read back either way |
| Taxonomy.TaxonomyStore.DeleteItemType | bot/repo/taxonomy.py:339-344 | the item types with that id are gone and the id reads back as nothing |
| Taxonomy.TaxonomyStore.SetSectionItemType | bot/repo/taxonomy.py:383-401 | the link table is upserted on (section, item type) |
| Taxonomy.TaxonomyStore.SetSubjectSectionEnable | bot/repo/taxonomy.py:434-462 | the enablement table is upserted on (subject, section) |
| Taxonomy.SectionReadBack | bot/repo/taxonomy.py:36-66 | a stored section is read back by its id, disabled or not |
| Taxonomy.CardReadBack | bot/repo/taxonomy.py:156-184 | a stored card is read back by its id, disabled or not |
| Taxonomy.UnsectionedCardListing | bot/repo/taxonomy.py:216-250 | a card stored without a section is listed by `get_cards()` when visible and by no `get_cards(section_id=s)` |
| Taxonomy.ItemTypeReadBack | bot/repo/taxonomy.py:287-316 | a stored item type is read back by its id, disabled or not |
| Taxonomy.EnableShowsSection | bot/repo/taxonomy.py:434-489 | after enabling an enabled section for a subject, the subject's list shows it with the order given, and only so; after disabling it the list does not show it |
| TelegramUtil.BuildArchiveLink | bot/utils/telegram.py:10-23 | no link exactly when the chat id or the message id is zero; otherwise a `https://t.me/` link that ends in `/` and the message id |
| TelegramUtil.PublicLink | bot/utils/telegram.py:20-21 | with a username the link is `https://t.me/<username>/<message>` |
| TelegramUtil.PrivateLinkDropsPrefix | bot/utils/telegram.py:22-23 | a channel id written `-100<internal>` without a username gives `https://t.me/c/<internal>/<message>` |
| TelegramUtil.PositiveChatKept | bot/utils/telegram.py:22-23 | a positive chat id has no `-100` to remove and is the chat part as it is |
| TelegramUtil.PrivateLinkExample | bot/utils/telegram.py:22-23 | message 42 of channel `-100123` without a username links to `https://t.me/c/123/42` |
| TelegramUtil.FileUniqueId | bot/utils/telegram.py:26-46 | nothing for no message; any id found is one of the message's file ids |
| TelegramUtil.FileIdIsFirstCandidate | bot/utils/telegram.py:34-46 | the id found is that of the first file present among document, largest photo, video, audio, voice and animation, or nothing |
| TelegramUtil.FileIdFoundIff | bot/utils/telegram.py:26-46 | an id is found exactly when the message carries some file |
| TelegramUtil.DocumentFirst | bot/utils/telegram.py:34-37 | a document wins over everything else, and of a photo's sizes the last is taken |
| TermResources.ValidateKind | bot/db/term_resources.py:7-27 | accepted exactly when the text is one of the eleven kinds, and then returned as it is; anything else is a `ValueError` naming it |
| TermResources.KindValuesDistinct | bot/db/term_resources.py:7-20 | the eleven kinds have distinct values and each is accepted |
| TermResources.MaxById | bot/db/term_resources.py:58 | none exactly for no rows; otherwise a row whose id no other row exceeds |
| TermResources.GetLatestTermResource | bot/db/term_resources.py:48-62 | a `ValueError` exactly for an unknown kind; none exactly when no row has that level, term and kind; otherwise the storage chat and message of the highest-id such row |
| TermResources.HasTermResource | bot/db/term_resources.py:65-72 | a `ValueError` exactly for an unknown kind; otherwise whether a row of that level, term and kind exists |
| TermResources.HasIffLatest | bot/db/term_resources.py:48-72 | `has_term_resource` holds exactly when `get_latest_term_resource` finds a row |
| TermResources.ListTermResourceKinds | bot/db/term_resources.py:74-81 | the kinds stored for that level and term, exactly those, each once |
| TermResources.TermResourceStore.constructor | bot/db/term_resources.py:29-46 | the table starts empty |
| TermResources.TermResourceStore.InsertTermResource | bot/db/term_resources.py:29-46 | an unknown kind fails before the table is touched; otherwise one row is appended under a fresh id, and it is then the latest of its key |
| TermResources.LatestAfterInsert | bot/db/term_resources.py:40-62 | a row whose id exceeds every stored id becomes the latest of its level, term and kind |
| Translation.ChosenLang | bot/i18n/translator.py:25-26 | the explicit language, else the user's `lang` setting, else the translator's default |
| Translation.Lookup | bot/i18n/translator.py:29 | a key the catalogue holds gives its text; a missing key stands for itself |
| Translation.Translator.constructor | bot/i18n/translator.py:9-11 | the default language is kept and the cache is empty |
| Translation.Translator.Load | bot/i18n/translator.py:13-16 | the language's file is put into the cache; a missing file fails and leaves the cache as it was |
| Translation.Translator.Gettext | bot/i18n/translator.py:18-29 | the language is chosen, its catalogue loaded when not yet cached, and the key looked up in it |
| Translation.GettextTwice | bot/i18n/translator.py:27-29 | a language once loaded is served from the cache, so a catalogue changed on disk afterwards is not seen |
| Translation.GetText | bot/i18n/translator.py:32-41 | `gettext` of the module's translator, whose default language is English |
| Translation.EnglishByDefault | bot/i18n/translator.py:9-29 | without a language or a `lang` setting English is used, and a key its catalogue lacks comes back unchanged |
| Translation.ExplicitLangWins | bot/i18n/translator.py:25-26 | an explicit language wins over the user's setting, which wins over the default |
| NavCache.Lookup | bot/navigation/tree.py:73-77 | a value exactly when one was stored for the key less than 90 seconds before, and then that value |
| NavCache.Loaded | bot/navigation/tree.py:79-100 | a kind without a loader gives no children; otherwise the loader's answer for the node's arguments |
| NavCache.ChildrenCache.constructor | bot/navigation/tree.py:27 | the cache starts empty |
| NavCache.ChildrenCache.Invalidate | bot/navigation/tree.py:30-38 | everything is forgotten |
| NavCache.ChildrenCache.Children | bot/navigation/tree.py:66-86 | a fresh cached value is returned and the cache kept; otherwise the loader's answer is stored with the current time and returned |
| NavCache.StoredServed | bot/navigation/tree.py:24-85 | a value just stored is served for the next 90 seconds and no longer |
| NavCache.StoreKeepsOthers | bot/navigation/tree.py:85 | storing under one key leaves what every other key serves alone |
| NavCache.InvalidatedServesNothing | bot/navigation/tree.py:30-76 | after `invalidate()` nothing is served |
| NavCache.ChildrenTwice | bot/navigation/tree.py:66-86 | asking twice within 90 seconds of a load gives the loaded answer again, even when the database changed in between |
| NavCache.ChildrenAfterInvalidate | bot/navigation/tree.py:30-86 | after `invalidate()` the next call asks the database |

## Behaviour worth noting

- Hashtags are read line by line, and the first tag must be the content
  alias. The only error codes are `E-NO-CONTEXT`, `E-ALIAS-UNKNOWN`,
  `E-HT-MULTI` and `E-NO-SESSION`. `E-HT-MULTI` can never be raised
  (`HashtagParser.NeverMulti`).
- Taxonomy reads order by `sort_order` alone, as a stable sort; the label is
  not a second key.
- The children cache is keyed by the node kind and its arguments only.
  Nothing in the key depends on the user's permissions, and an ingestion
  does not invalidate it.
- The inline navigation stack has no root sentinel: popping an empty stack
  gives `None`.
- An ingestion's writes (material row, ingestion row, status updates) are
  separate statements, not one transaction; each is one atomic table update
  here.
- No menu level is skipped when it offers a single choice.

## Left out

- Telegram I/O (`send_message`, `copy_message`, `send_ephemeral` and its
  delayed delete) is not modelled: a reply or a copy is a value the handler
  returns, and the delayed delete is concurrency.
- aiosqlite connections, commits and the SQLite DDL and migrations are not
  modelled; the unique indexes the code relies on appear as validity
  predicates of the stores.
- SQL queries without `ORDER BY` are taken to return rows in insertion order.
- Regular expressions are hand-written matchers. Python's `str.lower()` is
  modelled for ASCII letters only, and `\d` for ASCII and Arabic-Indic
  digits only.
- The sensitivity policy's regex search is a parameter (a predicate per
  pattern), not a regex engine.
- The translator's JSON catalogue files are a map from language to
  catalogue; reading the files is not modelled.
- The wall clock is a parameter wherever the source reads the time.
- The reply keyboards `generate_levels_keyboard`, `generate_terms_keyboard`,
  `generate_subjects_keyboard`, `generate_years_keyboard`,
  `generate_lecturers_keyboard`, `generate_lecture_titles_keyboard`,
  `generate_lecture_category_menu_keyboard`, `build_years_menu`,
  `build_lectures_menu` and `build_types_menu` are modelled only through their
  shared shape, `_rows` followed by a footer (`Keyboards.WithFooter`); their
  own button captions are not.
- The navigation stubs at the end of bot/db/materials.py (lines 212-270) are
  not modelled.
- `update_subject_mode` is modelled only for the two modes that
  `set_theory_only` writes (`Subjects.Store.SetTheoryOnly`); an arbitrary mode
  string is not.
- The ingestion handler calls `find_exact` with an `alt_title` argument and
  `insert_material` with four arguments, neither of which matches the
  signatures in bot/db/materials.py. Both are modelled by their evident
  intent.
- `parse_hashtags` is called without `await` in the ingestion handler; the
  model uses the parse result.
- `insert_term_resource` is called with four arguments for a five-parameter
  signature. The attendance branch is therefore modelled as an abstract
  attendance log.
- The inline tree handler's `_render` (and `_render_current`, which only
  calls it) calls `build_menu` with six positional arguments and two keyword
  arguments, which its signature in bot/navigation/nav_builder.py does not
  accept; it does not await it and reads `menu.keyboard`. The handler also
  reads `menu.buttons` and imports `CATEGORY_SECTIONS` and
  `get_latest_material_by_category`, which bot/navigation/tree.py does not
  define. The menu buttons, the category set and the render outcome are
  therefore parameters of `NavTree`.
- The page number's `int()` conversion failure in the inline tree handler is
  modelled as a `BadPage` outcome, not as an exception.
- The inline navigation stack keeps its nodes in a `seq` field. The model
  does not capture that `state()` returns a copy while the stack shares its
  list with `user_data`.
- ImportExport.ImportTaxonomy: `is_content_tag` is a boolean, whereas the
  source stores the integers 0 and 1.
- Rbac.RbacStore.HasPermission: the order in which the join returns grant
  rows is assumed to be user-role order, then grant order, because SQL does
  not fix it.
- Rbac.UsersWithTag: its row order is assumed to be user-role order.
- NavMenu.BuildMenu: `build_menu` calls `materials.count_by_subject`,
  `count_by_section`, `get_materials` and `count_by_item_type`, none of which
  bot/repo/materials.py defines, so as written its first statement raises
  `AttributeError` and no menu is ever built. The model gives each helper
  the meaning its name and the function's docstring state: the number of
  the subject's materials (`NavMenu.OfSubject`), the number and the list of
  the subject's materials in the section (`NavMenu.OfSection`), and the
  number of those with the item type (`NavMenu.ItemTypeCount`).
- NavMenu.GroupsMembers: rests on the material counting helpers that bot/repo/materials.py
  lacks; their meaning here is the one given under NavMenu.BuildMenu.
- NavMenu.CardButtonsMembers: rests on the material counting helpers that bot/repo/materials.py
  lacks; their meaning here is the one given under NavMenu.BuildMenu.
- NavMenu.ItemTypeButtonsMembers: rests on the material counting helpers that bot/repo/materials.py
  lacks; their meaning here is the one given under NavMenu.BuildMenu.
- NavMenu.SectionGroupMembers: rests on the material counting helpers that bot/repo/materials.py
  lacks; their meaning here is the one given under NavMenu.BuildMenu.
- NavMenu.SectionGroupShape: rests on the material counting helpers that bot/repo/materials.py
  lacks; their meaning here is the one given under NavMenu.BuildMenu.
- NavMenu.SubjectHasMaterials: rests on the material counting helpers that bot/repo/materials.py
  lacks; their meaning here is the one given under NavMenu.BuildMenu.
- NavMenu.MenuMembers: rests on the material counting helpers that bot/repo/materials.py
  lacks; their meaning here is the one given under NavMenu.BuildMenu.
- NavMenu.SectionButtonShown: rests on the material counting helpers that bot/repo/materials.py
  lacks; their meaning here is the one given under NavMenu.BuildMenu.
- NavMenu.CardButtonShown: rests on the material counting helpers that bot/repo/materials.py
  lacks; their meaning here is the one given under NavMenu.BuildMenu.
- NavMenu.CardButtonOrigin: rests on the material counting helpers that bot/repo/materials.py
  lacks; their meaning here is the one given under NavMenu.BuildMenu.
- NavMenu.CardButtonListed: rests on the material counting helpers that bot/repo/materials.py
  lacks; their meaning here is the one given under NavMenu.BuildMenu.
- NavMenu.ItemTypeButtonShown: rests on the material counting helpers that bot/repo/materials.py
  lacks; their meaning here is the one given under NavMenu.BuildMenu.
- NavMenu.ItemTypeButtonOrigin: rests on the material counting helpers that bot/repo/materials.py
  lacks; their meaning here is the one given under NavMenu.BuildMenu.
- NavMenu.ItemTypeButtonListed: rests on the material counting helpers that bot/repo/materials.py
  lacks; their meaning here is the one given under NavMenu.BuildMenu.
- NavMenu.GroupsStep: rests on the material counting helpers that bot/repo/materials.py
  lacks; their meaning here is the one given under NavMenu.BuildMenu.
- NavMenu.GroupOf: rests on the material counting helpers that bot/repo/materials.py
  lacks; their meaning here is the one given under NavMenu.BuildMenu.
- NavMenu.ShownCards: rests on the material counting helpers that bot/repo/materials.py
  lacks; their meaning here is the one given under NavMenu.BuildMenu.
- NavMenu.ShownItemTypes: rests on the material counting helpers that bot/repo/materials.py
  lacks; their meaning here is the one given under NavMenu.BuildMenu.
- HashtagParser.SuccessMeansComplete: states the final check of
  bot/parser/hashtags.py:153-158 with the item type's `requires_lecture`
  flag. As written, line 155 reads `item_type[4]` from the dict that
  `get_item_type` returns (bot/repo/taxonomy.py:308-316), whose keys are
  names, so whenever the content tag found an item type the parse raises
  `KeyError` instead of succeeding or returning `E-NO-SESSION`; the model
  reads the key the index evidently means.
- HashtagParser.ParseTagLines: ends with the same final check, read through
  `requires_lecture` where line 155 as written raises `KeyError` on
  `item_type[4]` whenever an item type was found.
- HashtagParser.ParseHashtags: likewise returns `E-NO-SESSION` or success
  through `requires_lecture`, where as written the parse raises `KeyError`
  at line 155 whenever the content tag found an item type.
- Approvals.HandleDecision: on approval the handler calls
  `update_material_storage(material_id, chat, message, file_unique_id)`,
  passing `file_unique_id` by position although the signature it imports
  (bot/db/materials.py:81-87) makes it keyword-only, so as written every approval raises `TypeError` after the
  copy to the archive channel: the material keeps its old storage, the
  ingestion stays pending and no reply is sent. The model passes the
  argument by keyword.
- Approvals.Accept: states the approval as it is evidently meant, with
  `file_unique_id` passed by keyword; as written the storage update raises
  `TypeError`, as under Approvals.HandleDecision.
- IngestionHandler.HandleUpload: every reply goes through `send_ephemeral`
  with a `message_thread_id` argument that bot/utils/telegram.py does not
  accept, so as written each reply raises `TypeError` once the writes before
  it are done, and the approver notification after the receipt is never
  sent. The model delivers the replies and the notification.
- IngestionHandler.Upload: likewise replies through `send_ephemeral` with
  `message_thread_id`; modelled as under IngestionHandler.HandleUpload.
- IngestionHandler.HandleDuplicateDecision: its replies too pass
  `message_thread_id` to `send_ephemeral`. As written, the refusal to a
  non-sender raises instead of being sent; cancel forgets the prompt and
  then raises before the keep/delete question; replace writes the ingestion
  row and attaches the material, then raises before notifying the approver
  and before forgetting the prompt, so the prompt stays pending and pressing
  replace again queues a second request. The model follows the evident
  intent: the replies are sent and the prompt is forgotten.
- ImportExport.Import: applies a mapping insert with the alias resolved when
  the statement runs, the corrected behaviour of the finding below; the
  code as written is `ImportExport.ApplyOpAsWritten`.
- ImportExport.RunImport: runs the corrected statements, as
  ImportExport.Import does.
- ImportExport.ImportTaxonomy: commits the corrected statements, as
  ImportExport.Import does.
- ImportExport.NewAliasReimportQuiet: the idempotence the import's docstring
  promises is proved for re-importing a fresh export
  (`ImportExport.ReimportIsEmpty`) and for this example, not for arbitrary
  data.
- ImportExport.ExportSections: the `created_at` and `updated_at` columns the
  export writes are not modelled; the rows here carry no timestamps, and the
  import never reads them.
- ImportExport.ExportCards: likewise without `created_at` and `updated_at`.
- ImportExport.ImportTaxonomy: import files are assumed to carry every
  label (`label_ar`, `label_en`) and, for `subject_section_enable`, the
  `section_id`; the source reads them with `.get` and would pass `None` to
  the statement when a key is missing. The card's `section_id`, which may
  be missing or `null`, is modelled as optional.
- ImportExport.ExportItemTypes: likewise without `created_at` and
  `updated_at`.
- ImportExport.ExportEnables: likewise without `created_at` and
  `updated_at`.
- Callbacks.ParseInt: Python's `int()` also accepts surrounding whitespace,
  `_` between digits and non-ASCII decimal digits; the model accepts an
  optional sign and ASCII digits only.
- NavTree.ParsePart: `str.isdigit` is modelled for ASCII digits only; Python
  also holds it for other Unicode digits, which `int()` then converts or,
  for digits such as superscripts, rejects.
- Sensitivity.SensitivityPolicy.constructor: a pattern that `re.compile`
  rejects raises `re.error` in the source; patterns here are predicates
  and always compile.
- Ingestions.IngestionStore.DeleteOldPendingIngestions: takes `hours` as a
  natural number; for a negative `hours` the source builds the modifier
  `--N hours`, whose meaning in SQLite's `datetime` is not modelled.
- bot/keyboards/builders.py imports `add_lecturer_title` from
  bot/utils/formatting.py, which does not define it, and the package
  bot/keyboards/builders/ shadows that module's name. The lecturer
  captions that function would produce are not modelled; the module's
  keyboards are modelled through their shared shape, as said above.

## Findings

| source | as written | input that shows it | evidently intended | confidence | as-written member | corrected member |
|---|---|---|---|---|---|---|
| bot/parser/context.py:33-37 | `parse_context` calls `linking.get_binding_by_topic`, which bot/repo/linking.py does not define, so every message in a thread raises `AttributeError`; it is not `RepoNotFound`, so it is not caught | a message in thread 5 of a group whose topic 5 is bound to subject 1, section 2 | look up the topic row by group and thread and take its subject and section | not executed | Context.ParseContextAsWritten, Context.TopicLookupMissing | Context.ParseContextSpec, Context.TopicContext |
| bot/repo/rbac.py:101,137-141 | `set_permission` stores `json.dumps(None)`, the text `null`, for an unscoped grant; `has_permission` only treats SQL `NULL` as unscoped, and for a scoped query calls `.get` on the decoded `None` | role 1 `staff` enabled, user 7 assigned to it, key `manage` granted with no scope, query scope `{"group": 5}` | an unscoped grant allows every scope | not executed | Rbac.Decide, Rbac.NullScopeCrashes | Rbac.DecideIntended, Rbac.RbacStore.HasPermissionIntended, Rbac.UnscopedGrantAllows |
| bot/handlers/import_export.py:405-438 | a mapping row is inserted with the alias id looked up while planning, which is `NULL` for an alias added by the same import, so the mapping never joins its alias | importing alias `hw` with a mapping to card 1 into empty tables; importing the same data a second time then stores the mapping again | insert the mapping with the id of the alias as it stands when the statement runs | not executed | ImportExport.NewAliasMappingLost, ImportExport.UnresolvedMappingIsLost, ImportExport.NewAliasReimportDuplicates | ImportExport.NewAliasMappingKept, ImportExport.ImportedMappingResolves, ImportExport.NewAliasReimportQuiet, ImportExport.Import, ImportExport.RunImport, ImportExport.ImportTaxonomy |
