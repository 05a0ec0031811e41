# Grind Stories content core, in Dafny

A model of the content core of Grind Stories, a small editorial site: the
block-based article model, the article editor's state updates, the mapping of
an article to the relational tables of the hosted store and back, the
in-memory article store, and the small string builders (the subscriber CSV
exports and the "date · author" line of an article card).

Modules, one per source file or concern:

- `Types` (lib/types.ts): the four block variants as one datatype, `Article`,
  `Subscriber`, the block tag strings, a property view `Get(block, key)` of a
  block, and `FindArticle` (the `articles.find` lookup both data hooks use).
- `ArticleEditor` (components/ArticleEditor.tsx): each `setArticle` updater as
  a function on `Article`; the drag-and-drop reorder as an in-place shift on a
  copied array (`MoveInPlace`) proved equal to splice-out then splice-in
  (`Moved`); the `EditorSession` class holding the working article, the
  `isSaving` flag and the dragged id, one method per handler.
- `BlockRows` and `SupabaseData` (hooks/useSupabaseData.ts): block rows
  (`block` plus `article_id` and `block_order`), serialisation, the filtered
  and stripped read, the block-order sort of the read query, and the hook as
  a class over a `Backend` object holding the two tables. Whether each store
  call succeeds is an input of the method that makes it.
- `MockData` (hooks/useMockData.ts): the mock hook as a class over its
  articles list.
- `DashboardCsv` (app/dashboard/page.tsx) and `LegacyApp` (App.tsx): the two
  CSV exports, the blank-article template, the article chosen for the editor
  route and the update-or-add rule on save.
- `ArticleCard` (app/page.tsx): JavaScript `trim`, the meta line and the hero
  image choice.
- `Wrappers` (Option), `Text` (`join` and `split`) and `CsvRead` are helpers.
  `CsvRead` is not part of the application: it reads quoted CSV fields back
  and serves as the reference the exports are proved against.

Inputs that the source takes from the environment are parameters: the block
id from `generateBlockId`, the `Date.now()` stamps and the formatted date of
App.tsx, and the success or failure of each store call.

Behaviour of the code worth stating:

- Reading blocks back does not skip unknown tags; it strips `article_id` and
  `block_order` and keeps the rest.
- Writing does not null the columns a variant lacks; a row is the block's own
  properties plus the two extra keys.
- `deleteArticle` deletes only the article row. It issues no block delete, so
  unless the store cascades, the article's block rows stay in the table.
  `SupabaseDataHook.DeleteArticle` states this.
- `updateArticle` always runs its update step, whether or not a row has the id.
  `EditorPage.handleSave` picks update or add from the route id alone.
- `Subscriber` is the declared record of name, email and subscribedAt. It has
  no id.

## Model

| member | source | states |
|---|---|---|
| Types.TagsDistinct | lib/types.ts:2-7 | The four tags are the strings text, image, audio and sponsorship, and no two variants share one. |
| Types.Get | lib/types.ts:9-37 | A block has a property exactly when its variant's interface lists it; every variant has `id`. |
| Types.BlockExtensional | lib/types.ts:9-37 | The union is closed: two blocks with the same variant and the same property values are equal. |
| Types.FindArticle | hooks/useSupabaseData.ts:65-68 | `getArticle` gives none exactly when no article has the id, and otherwise the first article in the list with that id. |
| ArticleEditor.WithField | components/ArticleEditor.tsx:51-54 | A field change sets the named field to the value; the other fields, the id and the content stay. |
| ArticleEditor.EditorSession.HandleFieldChange | components/ArticleEditor.tsx:51-54 | The session's article becomes the field-changed article; the save flag and the dragged id are unchanged. |
| ArticleEditor.ApplyPatch | components/ArticleEditor.tsx:62 | Merging a partial block keeps the variant; each property the block has takes the patch's value if the patch gives one, else keeps its own. |
| ArticleEditor.ApplyPatchIdempotent | components/ArticleEditor.tsx:62 | Merging the same partial block twice equals merging it once. |
| ArticleEditor.WithBlockChanged | components/ArticleEditor.tsx:56-67 | Content change keeps length and order. Blocks with another id are unchanged and blocks with the id are merged with the patch. With no matching block the article is returned unchanged. |
| ArticleEditor.WithBlockChangedIdempotent | components/ArticleEditor.tsx:56-67 | Repeating a content change with the same id and patch changes nothing more. |
| ArticleEditor.ChangeKeepsUniqueIds | components/ArticleEditor.tsx:56-67 | If block ids were distinct and the patch does not carry `id`, ids stay distinct after a content change. |
| ArticleEditor.PatchedIdCanCollide | components/ArticleEditor.tsx:62 | A patch that carries `id` can give two blocks the same id: changing `b1` to id `b2` next to a `b2` block. |
| ArticleEditor.EditorSession.HandleContentChange | components/ArticleEditor.tsx:56-67 | The session's article becomes the content-changed article; nothing else in the session changes. A patch without `id` keeps the block ids distinct. |
| ArticleEditor.NewBlock | components/ArticleEditor.tsx:73-85 | The new block has the requested variant and id. Text content is the starter paragraph, and every other property of the template is the empty string. |
| ArticleEditor.WithBlockAdded | components/ArticleEditor.tsx:90 | Adding appends exactly one block, the template, after the unchanged earlier blocks; the other fields stay. |
| ArticleEditor.AddKeepsUniqueIds | components/ArticleEditor.tsx:69-90 | If block ids were distinct and the new id is unused, ids stay distinct after adding. |
| ArticleEditor.EditorSession.AddBlock | components/ArticleEditor.tsx:69-91 | With an unused id, the session's article becomes the article with the template appended, and distinct block ids stay distinct. |
| ArticleEditor.DropId | components/ArticleEditor.tsx:95 | The filter is never longer than the content; `DropIdMembers` and `DropIdConcat` state which blocks it keeps and in what order. |
| ArticleEditor.DropIdMembers | components/ArticleEditor.tsx:95 | The filter keeps exactly the blocks whose id differs. |
| ArticleEditor.DropIdConcat | components/ArticleEditor.tsx:95 | The filter distributes over concatenation, so the kept blocks keep their relative order. |
| ArticleEditor.DropIdKeepsUniqueIds | components/ArticleEditor.tsx:95 | Removing blocks keeps distinct ids distinct. |
| ArticleEditor.WithoutBlock | components/ArticleEditor.tsx:93-99 | The content is the filtered content with the other fields kept. With no matching block the article is unchanged; with one, the content gets shorter. |
| ArticleEditor.EditorSession.RemoveBlock | components/ArticleEditor.tsx:93-99 | The session's article becomes the article without the id's blocks, and distinct block ids stay distinct. |
| ArticleEditor.IndexOf | components/ArticleEditor.tsx:122-123 | `findIndex` gives -1 exactly when no block has the id, else the first index holding it. |
| ArticleEditor.Moved | components/ArticleEditor.tsx:127-129 | Splice-out then splice-in keeps the length. The block from the source index lands at the target index, and the blocks between them shift by one. |
| ArticleEditor.MovedIsPermutation | components/ArticleEditor.tsx:127-129 | The move is a permutation: the same blocks, each as often. |
| ArticleEditor.MovedThenRemoved | components/ArticleEditor.tsx:127-129 | Taking the moved block out again leaves what taking it out of the original left. |
| ArticleEditor.MoveInPlace | components/ArticleEditor.tsx:127-129 | Shifting the copied array in place gives exactly the spliced sequence. |
| ArticleEditor.ReorderedNoOp | components/ArticleEditor.tsx:115-125 | No dragged id (or the falsy empty id), a drop on itself, or either id missing leaves the content unchanged. |
| ArticleEditor.Reordered | components/ArticleEditor.tsx:121-132 | The drop updater. It has no contract of its own; `ReorderedNoOp`, `ReorderedIsPermutation` and `ReorderedPlacesDragged` state its meaning. |
| ArticleEditor.ReorderedIsPermutation | components/ArticleEditor.tsx:121-132 | Every drop yields a permutation of the content of the same length. |
| ArticleEditor.ReorderedPlacesDragged | components/ArticleEditor.tsx:121-132 | A real move puts the dragged block at the target's original index; the other blocks keep their relative order. |
| ArticleEditor.ReorderKeepsUniqueIds | components/ArticleEditor.tsx:121-132 | Reordering keeps distinct ids distinct. |
| ArticleEditor.EditorSession.HandleDragStart | components/ArticleEditor.tsx:101-105 | Starting a drag records its block id and changes nothing else. |
| ArticleEditor.EditorSession.HandleDrop | components/ArticleEditor.tsx:112-136 | The content becomes the reordered content for the recorded and the dropped id, and distinct block ids stay distinct. The dragged id is cleared in every branch. |
| ArticleEditor.EditorSession.HandleDragEnd | components/ArticleEditor.tsx:138-141 | Ending a drag clears the dragged id and changes nothing else. |
| ArticleEditor.EditorSession.HandleSaveClick | components/ArticleEditor.tsx:202-206 | A click while saving submits nothing; otherwise the current article is submitted. Either way the session is then saving. |
| ArticleEditor.EditorSession.SaveSettled | components/ArticleEditor.tsx:207-209 | Once the save resolves or throws, the session is no longer saving; the article is unchanged. |
| ArticleEditor.EditorSession.constructor | components/ArticleEditor.tsx:37-40 | A session starts on the given article, not saving, with nothing dragged. It is valid (distinct block ids) when the article's ids are distinct. |
| BlockRows.SplitThenJoin | hooks/useSupabaseData.ts:73 | Splitting off the content and spreading it back gives the article; the row keeps the id. |
| BlockRows.ToRows | hooks/useSupabaseData.ts:81-85 | `blocksToInsert`. It has no contract of its own; `ToRowsShape` states its meaning. |
| BlockRows.ToRowsShape | hooks/useSupabaseData.ts:81-85 | There is one row per block, in order. Row i holds block i, the article id and `block_order` i. |
| BlockRows.RowsOf | hooks/useSupabaseData.ts:37 | The filter is no longer than the table, and it contains only rows of the requested article. |
| BlockRows.RowsOfMultiset | hooks/useSupabaseData.ts:37 | The filter keeps every row of the article as often as the table holds it and drops all others. |
| BlockRows.RowsOfSorted | hooks/useSupabaseData.ts:27 | Filtering a read in `block_order` order keeps it in that order. |
| BlockRows.Strip | hooks/useSupabaseData.ts:38-42 | Removing `article_id` and `block_order` gives each row's block, in order. |
| BlockRows.ContentOf | hooks/useSupabaseData.ts:36-42 | One article's content in the assembly: filter, then strip. It has no contract of its own; `RoundTrip` and `ContentOfToRows` state its meaning. |
| BlockRows.SortByOrder | hooks/useSupabaseData.ts:24-27 | The block read returns the table's rows, as a permutation, in ascending `block_order`. |
| BlockRows.ContentOfToRows | hooks/useSupabaseData.ts:35-43 | Reassembling freshly serialised rows gives the original block sequence. |
| BlockRows.RoundTrip | hooks/useSupabaseData.ts:24-43 | A sorted read whose rows for the article are the written rows reassembles the written content exactly. This holds whatever other rows the table holds and however ties are ordered. |
| BlockRows.DeleteByParent | hooks/useSupabaseData.ts:78 | Delete-by-parent keeps exactly the rows of other articles. |
| BlockRows.ReplaceAll | hooks/useSupabaseData.ts:78-87 | After delete-then-insert, the article's rows are exactly the new rows and every other article's rows are as before. |
| BlockRows.ReadAfterReplace | hooks/useSupabaseData.ts:78-90 | Reading an article back after a replace-all write gives exactly the written content, for every sorted arrangement of the table the read may return. |
| BlockRows.OthersUnaffected | hooks/useSupabaseData.ts:78-87 | A replace-all write leaves the rows another article reads unchanged, each as often as before, however the read arranges the table. |
| SupabaseData.UpdateRows | hooks/useSupabaseData.ts:75 | Update-by-id keeps the table's length and order, and replaces exactly the rows with the id. |
| SupabaseData.DeleteRows | hooks/useSupabaseData.ts:114 | Delete-by-id keeps exactly the rows with another id. |
| SupabaseData.Assemble | hooks/useSupabaseData.ts:35-44 | Each article row, in order, gets the content read for its own id. |
| SupabaseData.Fetched | hooks/useSupabaseData.ts:23-44 | The assembly over the block read in `block_order` order. It has no contract of its own; `Assemble`, `GetAfterUpdate`, `GetAfterAdd` and `GetAfterDelete` state its meaning. |
| SupabaseData.GetAfterUpdate | hooks/useSupabaseData.ts:72-91 | After a fully successful update of an article that has a row, `getArticle` on the refreshed list gives exactly the saved article. |
| SupabaseData.ReadAfterAdd | hooks/useSupabaseData.ts:96-110 | Blocks inserted for an id no earlier row carries read back as the inserted content, for every sorted arrangement of the table. |
| SupabaseData.GetAfterAdd | hooks/useSupabaseData.ts:93-111 | After a fully successful add of an id found in neither table, `getArticle` gives the new article with its content. |
| SupabaseData.GetAfterDelete | hooks/useSupabaseData.ts:113-117 | After a successful delete and refresh, the id is no longer found. |
| SupabaseData.SupabaseDataHook.constructor | hooks/useSupabaseData.ts:7-9 | The hook starts with no articles and loading. |
| SupabaseData.SupabaseDataHook.GetArticle | hooks/useSupabaseData.ts:65-68 | Nothing is found exactly when no cached article has the id; a found article is in the cached list and has the id. |
| SupabaseData.Backend.constructor | hooks/useSupabaseData.ts:12-27 | The store holds the given `articles` and `content_blocks` tables. |
| SupabaseData.SupabaseDataHook.FetchArticles | hooks/useSupabaseData.ts:11-48 | A refresh with both queries successful assembles the list from the tables; a failed query keeps the previous list. Loading ends false either way. |
| SupabaseData.SupabaseDataHook.UpdateArticle | hooks/useSupabaseData.ts:72-91 | The steps run in order: update, delete-by-parent, insert. Each runs only if the one before succeeded. A failed update leaves the block table untouched, and only full success refreshes the list. |
| SupabaseData.SupabaseDataHook.AddArticle | hooks/useSupabaseData.ts:93-111 | The article row is inserted first. Rows are inserted only for non-empty content once that succeeded, and a failed step skips the refresh. |
| SupabaseData.SupabaseDataHook.DeleteArticle | hooks/useSupabaseData.ts:113-117 | Only the article rows with the id are removed; the block table is untouched. Success refreshes the list and failure keeps it. |
| MockData.ReplaceById | hooks/useMockData.ts:67-73 | Update keeps length and order and replaces every article with the id by the new one; all others stay. |
| MockData.ReplaceMissing | hooks/useMockData.ts:69-71 | With no article of that id, update leaves the list unchanged. |
| MockData.GetAfterUpdate | hooks/useMockData.ts:60-73 | After updating an existing id, `getArticle` on it gives the update. |
| MockData.GetOtherAfterUpdate | hooks/useMockData.ts:60-73 | Looking up any other id after an update gives what it gave before. |
| MockData.GetAfterAdd | hooks/useMockData.ts:75-77 | After adding, the new article is what its id finds. Every other id finds what it found before. |
| MockData.MockDataHook.constructor | hooks/useMockData.ts:58 | The hook starts from its initial list. |
| MockData.MockDataHook.GetArticle | hooks/useMockData.ts:60-65 | Nothing is found exactly when no article has the id; a found article is in the list and has the id. |
| MockData.MockDataHook.UpdateArticle | hooks/useMockData.ts:67-73 | The list becomes the replaced-by-id list. |
| MockData.MockDataHook.AddArticle | hooks/useMockData.ts:75-77 | The list becomes the new article followed by the old list. |
| DashboardCsv.EscapeQuotes | app/dashboard/page.tsx:37 | The escaped name is longer than the name by its number of quotes. |
| DashboardCsv.UnescapeEscape | app/dashboard/page.tsx:37 | Collapsing each doubled quote in the escaped name restores the name. |
| DashboardCsv.EscapeKeepsOthers | app/dashboard/page.tsx:37 | Escaping changes only quotes: any other character occurs in the result exactly when it occurs in the name. |
| DashboardCsv.Rows | app/dashboard/page.tsx:37 | There is one row per subscriber, in list order. |
| DashboardCsv.Row | app/dashboard/page.tsx:37 | One export line. It has no contract of its own; `RowReadsBack` states its meaning. |
| DashboardCsv.Csv | app/dashboard/page.tsx:31-38 | An empty list produces no CSV; otherwise the text starts with `name,email,subscribedAt` and a newline. |
| DashboardCsv.CsvLines | app/dashboard/page.tsx:36-38 | When no name, email or date holds a newline, splitting the file at newlines gives the header and then one row per subscriber in order, with no trailing empty line. |
| DashboardCsv.RowReadsBack | app/dashboard/page.tsx:37 | When neither the email nor the date holds a quote, a row reads back as three quoted fields: the name restored from its escaping, then the email and the date verbatim. |
| LegacyApp.LegacyRows | App.tsx:228 | There is one `"E","S"` row per subscriber, in list order. |
| LegacyApp.LegacyRow | App.tsx:228 | One legacy export line. It has no contract of its own; `LegacyRowReadsBack` states its meaning. |
| LegacyApp.LegacyCsv | App.tsx:222-229 | An empty list produces no CSV; otherwise the text starts with `email,subscribedAt` and a newline. |
| LegacyApp.LegacyCsvLines | App.tsx:227-229 | When no email or date holds a newline, splitting the file at newlines gives the header and then one row per subscriber in order. |
| LegacyApp.LegacyRowReadsBack | App.tsx:228 | A row reads back as the email and the date when neither holds a quote; nothing is escaped. |
| LegacyApp.NewArticleTemplate | App.tsx:299-307 | The blank article has id `new-article-` plus the stamp and author `A. Vanderbilt`. Its publish date is the given date, and title, subtitle, hero image and content are empty. |
| LegacyApp.ArticleToEdit | App.tsx:297-309 | A non-empty route id that finds an article edits the first article with that id, the one `getArticle` returns. Anything else edits the template. |
| LegacyApp.DispatchSave | App.tsx:311-316 | A present route id other than `new` passes the edited article unchanged to update. Otherwise add receives it with only the id replaced by `article-` plus the stamp. |
| LegacyApp.AfterSave | App.tsx:311-316 | The mock store's list after the dispatched call. It has no contract of its own; `SavedArticleIsFound` states its meaning. |
| LegacyApp.SavedArticleIsFound | App.tsx:311-316 | On either path, the saved article is what its id finds in the store afterwards. An update must name an article the store holds. |
| ArticleCard.TrimEmptyIffBlank | app/page.tsx:28 | A piece trims to something non-empty exactly when it is not all JavaScript whitespace. |
| ArticleCard.Trim | app/page.tsx:28 | `String.prototype.trim`. It has no contract of its own; `TrimEmptyIffBlank` states its meaning. |
| ArticleCard.MetaPiecesNonBlank | app/page.tsx:27-29 | The pieces are the date and then the author, each dropped when blank and kept untrimmed otherwise. |
| ArticleCard.MetaPieces | app/page.tsx:27-29 | The filtered pieces. It has no contract of its own; `MetaPiecesNonBlank` states its meaning. |
| ArticleCard.MetaLineCases | app/page.tsx:49-50 | There is no meta line exactly when both pieces are blank. Otherwise the remaining pieces are joined with space, middle dot, space. |
| ArticleCard.MetaLine | app/page.tsx:49-50 | The displayed meta line. It has no contract of its own; `MetaLineCases` states its meaning. |
| ArticleCard.Hero | app/page.tsx:34-44 | An empty hero image gives the placeholder. Otherwise the picture uses it, with the title as alt text, or `Article hero image` when the title is empty. |

## Left out

- Store client and query builder (services/supabaseClient.ts and the query chains): the store is two in-memory tables, and each call's success or failure is an input.
- The `created_at` ordering of the articles query: the fetched list follows the table's order.
- Column naming: rows carry the model's field names, not the snake_case column names.
- Extra columns: the `created_at` column and the null columns a real `select *` returns are not modelled.
- Subscribers in the Supabase hook: `fetchSubscribers` and the upsert-on-conflict of `addSubscriber` behave as the store library decides.
- The subscribers of the legacy App: `useMockData` returns no `subscribers`, `deleteArticle` or `addSubscriber` (App.tsx:327), so `subscribers.length` (App.tsx:223, 271) reads from `undefined`. `LegacyCsv` is modelled over a subscriber list the App never supplies.
- Error logging: the `console.error` call on each failed store step is not modelled; a failed step only ends the operation.
- The `name` that `fetchSubscribers` does not select: the dashboard CSV is modelled over the declared `Subscriber` record.
- SupabaseData.SupabaseDataHook.FetchArticles, SupabaseData.GetAfterUpdate and SupabaseData.GetAfterAdd: these are stated over `SortByOrder`, one stable order of rows with equal `block_order`. `ReadAfterReplace` and `ReadAfterAdd` state the read-back for every sorted order.
- Asynchrony and React batching: each hook operation is one atomic method.
- The intermediate `loading = true` seen while a refresh runs is not modelled; the model only records that loading ends false.
- The seed articles of the mock hook: `MockDataHook.constructor` takes its initial list as a parameter.
- `generateBlockId`, `fileToBase64`, `Date.now()` and date formatting: the ids, stamps, dates and file contents are inputs. Block ids are unique only as far as `AddBlock`'s freshness precondition says.
- Text generation (lib/gemini.ts, services/geminiService.ts), audio capture, authentication, rendering, drag events, `execCommand`, the Blob download and the app layout.
- The `useEffect` that reloads the session when the article prop changes.
- ArticleEditor.ApplyPatch: a patch property that the block's variant lacks is dropped. In JavaScript the spread would add it as a stray property, though no caller does this.
- ArticleEditor.EditorSession.HandleContentChange: id uniqueness is promised only for patches without `id`. No caller patches `id`; `PatchedIdCanCollide` shows that one that did could break it.
- ArticleEditor.ApplyPatch: the `type` tag is not a patch property, so a merge never changes a block's variant. No caller changes it.
- ArticleEditor.EditorSession.HandleSaveClick: the awaited `onSave` call is not made here. The method returns the article it would pass, and `SaveSettled` stands for the `finally`.
