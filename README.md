# Live-preview editor item, modelled in Dafny

This project models the core of a browser code playground: the editor-item component
(`CodeEditItem`). Each item holds an HTML, a CSS and a JavaScript buffer and a title. It
injects the buffers into the document of a preview iframe, rate-limits that injection
per kind, persists every edit to a stored list of records, and lets the user show or
hide each editor panel.

Modules, one concern each:

- `Wrappers` (wrappers.dfy): `Option`.
- `Dom` (dom.dfy): the iframe document, reduced to the element children of head and
  body. A node is a (tag, id, innerHTML) triple. `Load(d, k, code)` is the specification
  of `loadHtml`, `loadCss` and `loadJS`:
  - `querySelector` looks for the reserved id (`customHTML`, `customCSS`, `customJS`) in
    document order, head before body.
  - A node it finds is removed from the kind's parent (body for HTML/JS, head for CSS).
  - A fresh `div`, `style` or `script` node is then appended. The script's content is
    `try{` + code + `}catch(e){}`.
  - If the node found sits under the other parent, `removeChild` throws `NotFoundError`
    and nothing changes.

  The class `PreviewDocument` holds `head` and `body` as sequence fields. Its three
  methods do the replacement in place and are proved equal to `Load`. The lemmas prove
  the at-most-one invariant (`WellFormed`), replace-not-append, idempotence and
  cross-kind independence.
- `Store` (store.dfy): the stored collection as a sequence of entries (a JSON `null` or
  a record with an id and some of the fields `html`, `css`, `js`, `title`).
  `UpdateOrAppend` specifies `onCodeChange`, and the class `CodeStore` does it in place.
  The as-written variant and the finding are described below.
- `Debounce` (debounce.dfy): each debounced loader is modelled as one pending slot per
  kind. A call overwrites its kind's slot. A firing timer empties it.
- `Session` (session.dfy): the panel flags (`addCodeModule` / `deleteCodeModule` as pure
  functions), the initial state, and the class `EditItem`. `EditItem` ties together the
  editor change handlers, the title handler, add/delete module and the firing of the
  debounce timers. Its invariant `Valid` keeps the preview well formed and every
  pending slot equal to its kind's current buffer, so a firing timer injects the
  latest value.

Points where the code behaves in a way one might not expect:

- `addCodeModule` requests a *debounced* load of the panel's buffer
  (src/components/CodeEditItem/index.tsx:76-79, 87). It is not an immediate injection.
- The css and js buffers of an item without stored data start as `undefined`, not as
  the empty string (lines 27-28). When loaded, that value becomes the text
  `"undefined"`: a `style` holding `undefined`, a script `try{undefined}catch(e){}`.
  `Session.Text` models this conversion.
- An unparseable stored list makes `JSON.parse` throw (line 95). It is not read as an
  empty list. Parsing is outside the model.

## Model

| member | source | states |
|---|---|---|
| Dom.Load | src/components/CodeEditItem/index.tsx:44-72 | no contract of its own; characterised by LoadShape, LoadFailsIff, LoadLeavesOne, LoadCount and LoadKeepsOthers |
| Dom.IndexOf | src/components/CodeEditItem/index.tsx:45 | the index returned carries the id and no earlier node does; None exactly when no node carries it |
| Dom.IndexOfAppend | src/components/CodeEditItem/index.tsx:45 | the first match in a concatenation is the first match of the front part, else the first of the back part shifted by the front's length, else none |
| Dom.QuerySelector | src/components/CodeEditItem/index.tsx:45 | the node found is the first carrying the id in document order, head's children followed by body's, and its location names the parent it is in (an InHead index lies within head): its position in head ++ body is the first match there (body positions offset by head's length), and nothing is found exactly when no node in head ++ body carries the id |
| Dom.LoadFailsIff | src/components/CodeEditItem/index.tsx:44-72 | a load throws exactly when the reserved node found first is under the wrong parent (HTML/JS: any in head; CSS: none in head but one in body) |
| Dom.LoadShape | src/components/CodeEditItem/index.tsx:44-72 | a successful load removes the first reserved node of its parent, appends the fresh node and leaves the other parent as it was |
| Dom.LoadCount | src/components/CodeEditItem/index.tsx:44-72 | after a load the parent holds one reserved node if it had none, otherwise as many as before; so exactly one iff at most one before |
| Dom.LoadLeavesOne | src/components/CodeEditItem/index.tsx:44-72 | from an injectable document the load succeeds; the only reserved node is the fresh one, last in its parent, and none is in the other parent |
| Dom.LoadKeepsOthers | src/components/CodeEditItem/index.tsx:44-72 | the other parent is unchanged, and every node without the reserved id keeps its place in order |
| Dom.LoadIndependent | src/components/CodeEditItem/index.tsx:44-72 | nodes of any other id, including the other kinds' reserved nodes, are the same in head and body after the load |
| Dom.LoadPreservesWellFormed | src/components/CodeEditItem/index.tsx:44-72 | on a document with at most one node per reserved id, each in its own parent, every load succeeds, keeps that invariant, and leaves the fresh node holding the code as the kind's only reserved node (`Shows`) |
| Dom.ReplaceNotAppend | src/components/CodeEditItem/index.tsx:44-72 | loading a then b gives the same document as loading b alone |
| Dom.LoadIdempotent | src/components/CodeEditItem/index.tsx:44-72 | loading the same code twice gives the document of loading it once |
| Dom.LoadHtmlLeavesOne | src/components/CodeEditItem/index.tsx:44-51 | after loadHtml the body's only customHTML node is the div holding the code, and head is unchanged |
| Dom.LoadCssHeadOnly | src/components/CodeEditItem/index.tsx:55-62 | loadCss leaves body unchanged; head ends with the style node holding the code and has no other customCSS node |
| Dom.LoadJsGuarded | src/components/CodeEditItem/index.tsx:65-72 | loadJS leaves one customJS script, whose content is exactly the code inside try{...}catch(e){} |
| Dom.CssLoadCommutes | src/components/CodeEditItem/index.tsx:44-72 | on a well-formed document a CSS load and an HTML or JS load give the same result in either order |
| Dom.PreviewDocument.constructor | src/components/CodeEditItem/index.tsx:211 | a fresh iframe document has empty head and body, which is well formed |
| Dom.PreviewDocument.LoadHtml | src/components/CodeEditItem/index.tsx:44-51 | the in-place replacement leaves the document Load specifies for HTML, or leaves it unchanged when removeChild throws |
| Dom.PreviewDocument.LoadCss | src/components/CodeEditItem/index.tsx:55-62 | the same, for the CSS style node in head |
| Dom.PreviewDocument.LoadJS | src/components/CodeEditItem/index.tsx:65-72 | the same, for the guarded script in body |
| Dom.PreviewDocument.Inject | src/components/CodeEditItem/index.tsx:53-73 | runs kind k's load routine, the one its debounced runner wraps (lines 53, 63, 73): the result and new document are Load's for k, or the document is unchanged when removeChild throws |
| Store.UpdateOrAppend | src/components/CodeEditItem/index.tsx:94-103 | no contract of its own; the null-safe onCodeChange, characterised by UpdateExisting, AppendMissing, UpdateOrAppendStores and LastWriteWins |
| Store.FindIndex | src/components/CodeEditItem/index.tsx:96-97 | the index found is the first record with the id; None exactly when no record has it |
| Store.UpdateExisting | src/components/CodeEditItem/index.tsx:96-98 | with a record for the id: same length, the first such record gets the field set to the code with its other fields kept, all other entries unchanged |
| Store.AppendMissing | src/components/CodeEditItem/index.tsx:99-101 | without one: length grows by one, the prefix is unchanged, the last entry is {id, [type]: code} holding only that field |
| Store.UpdateOrAppendStores | src/components/CodeEditItem/index.tsx:94-103 | after the call the first record with the id holds the code in the field |
| Store.FindIndexAfterUpdate | src/components/CodeEditItem/index.tsx:94-103 | an edit keeps the item's record where it was, or puts a new one at the end |
| Store.LastWriteWins | src/components/CodeEditItem/index.tsx:94-103 | two edits of one field store only the second value |
| Store.FieldEditsCommute | src/components/CodeEditItem/index.tsx:94-103 | edits of two different fields of one item give the same list in either order |
| Store.PersistRoundTrip | src/components/CodeEditItem/index.tsx:94-103 | item 1 holding html "A", edited with css "B", is stored as {id: 1, html: "A", css: "B"} |
| Store.FindIndexAsWritten | src/components/CodeEditItem/index.tsx:97 | an index found by the non-null-safe lookup holds a record with the id |
| Store.FindIndexAsWrittenIff | src/components/CodeEditItem/index.tsx:96-97 | the non-null-safe lookup throws exactly when a null precedes the first record with the id, and otherwise finds that record |
| Store.UpdateOrAppendAsWritten | src/components/CodeEditItem/index.tsx:94-103 | no contract of its own; onCodeChange as written (None when findIndex throws), characterised by AsWrittenIff and AsWrittenLosesEdit |
| Store.AsWrittenIff | src/components/CodeEditItem/index.tsx:94-103 | onCodeChange as written stores what the corrected one stores, except that it throws when a null precedes the item's record |
| Store.AsWrittenLosesEdit | src/components/CodeEditItem/index.tsx:97 | on [null, {id: 7}] the as-written update throws; the corrected one stores the html in record 7 |
| Store.CodeStore.constructor | src/components/CodeEditItem/index.tsx:95 | the store starts with the saved collection |
| Store.CodeStore.OnCodeChange | src/components/CodeEditItem/index.tsx:94-103 | the in-place update or append leaves the collection UpdateOrAppend specifies |
| Debounce.Run | src/components/CodeEditItem/index.tsx:53 | a call sets its kind's pending code and leaves the other kinds' slots alone |
| Debounce.Fire | src/components/CodeEditItem/index.tsx:53 | a firing timer empties its kind's slot only |
| Debounce.Coalesce | src/components/CodeEditItem/index.tsx:53-73 | after a burst of calls each kind's slot holds the code of its last call, or its old value if it had none |
| Debounce.BurstLoadsLast | src/components/CodeEditItem/index.tsx:111-115 | a burst of edits of one kind leaves one pending load, carrying the last edit |
| Session.AddCodeModule | src/components/CodeEditItem/index.tsx:86 | sets the kind's flag and no other |
| Session.DeleteCodeModule | src/components/CodeEditItem/index.tsx:90-92 | clears the kind's flag and no other |
| Session.FlagLaws | src/components/CodeEditItem/index.tsx:86-91 | add is idempotent, delete after add is delete, add after delete is add; for different kinds two adds, two deletes, and an add with a delete each commute |
| Session.Text | src/components/CodeEditItem/index.tsx:27-28 | no contract of its own; a buffer left `undefined` is injected as the text "undefined" (lines 49, 60, 70), as used by EditItem.CodeOf in AddModule's and TimerFires's contracts |
| Session.InitialHtmlCode | src/components/CodeEditItem/index.tsx:26 | a missing or empty prop gives the built-in skeleton, otherwise the prop; the buffer never starts empty |
| Session.EditItem.constructor | src/components/CodeEditItem/index.tsx:14-30 | the initial flags are html shown, css and js hidden; buffers and title come from the item data, with the html and title fallbacks; nothing pending |
| Session.EditItem.OnEditorChange | src/components/CodeEditItem/index.tsx:111-142 | an edit sets that buffer only, requests a debounced load of the new code, persists it through onCodeChange, and leaves the preview untouched |
| Session.EditItem.OnTitleInput | src/components/CodeEditItem/index.tsx:186-189 | a title edit sets the title and persists it under 'title'; no buffer, load or preview effect |
| Session.EditItem.AddModule | src/components/CodeEditItem/index.tsx:75-88 | shows the panel and requests a debounced load of that kind's current buffer; the preview is not yet touched |
| Session.EditItem.DeleteModule | src/components/CodeEditItem/index.tsx:90-92 | hides the panel only; preview, pending loads, buffers and store are unchanged |
| Session.EditItem.TimerFires | src/components/CodeEditItem/index.tsx:53-73 | a firing timer loads that kind's latest pending code into the preview, empties its slot and keeps the preview well formed; since every pending slot holds its kind's current buffer (part of `Valid`), the kind's only reserved node afterwards shows the current buffer, never a stale edit |
| Session.HideKeepsContent | src/components/CodeEditItem/index.tsx:90-92 | no contract of its own; a scenario: type "X" into the html editor, let the timer fire, hide the panel, and the body's only customHTML node is still the div holding "X" |

## Findings

| source | as written | input that shows it | evidently intended | confidence | as-written member | corrected member |
|---|---|---|---|---|---|---|
| src/components/CodeEditItem/index.tsx:97 | the existence test uses `item?.id`, but `findIndex(item => item.id === id)` reads `.id` of every entry before the match, so a `null` entry there throws a TypeError and the edit is not saved | stored list `[null, {id: 7}]`, any edit of item 7 | a null-safe lookup, as in the test on line 96 | low, not executed; stored nulls only come from outside writes to the storage key | Store.AsWrittenLosesEdit | Store.UpdateOrAppendStores |

The as-written lookup is `Store.FindIndexAsWritten` / `Store.UpdateOrAppendAsWritten`.
`Store.AsWrittenIff` states exactly when the two versions differ. The rest of the model
(`Store.CodeStore.OnCodeChange` and `Session.EditItem`) uses the null-safe
`Store.UpdateOrAppend`.

## Left out

- React rendering, hooks, refs, the CodeMirror editors, the MUI buttons and the hover menus (lines 105-215). They are UI plumbing. The change handlers' effects are modelled as `EditItem` methods.
- The iframe-mount effect (lines 37-42) and the title-mount effect (lines 32-35) are not modelled. The `EditItem` constructor requires a document that already exists and is well formed.
- Whether the iframe is displayed (line 210). This is presentation only.
- `localStorage` and `JSON.parse` / `JSON.stringify` (lines 95, 102) are I/O and serialisation. The store is the parsed sequence, read and written back in memory. Parse errors and storage quota errors are not modelled.
- Stored entries that are neither `null` nor records (numbers, strings, arrays) are not modelled. They never match an id and never throw, so they would behave like records of another id.
- Ids are modelled as `int`. The source compares any JSON value with `===`.
- Store.CodeStore.OnCodeChange, Session.EditItem.OnEditorChange, Session.EditItem.OnTitleInput: these use the null-safe lookup, not the one the source writes at line 97. On a stored list such as `[null, {id: 7}]` the source throws there and saves nothing, while these members save the edit. The as-written behaviour is `Store.UpdateOrAppendAsWritten` (see "## Findings").
- `Debounce.Run`, `Session.EditItem.TimerFires`: the 600 ms wait and the timers of `useDebounceFn` belong to an external library. The model shows no time: a call overwrites the kind's pending slot, and a timer firing is an explicit event.
- Browser parsing of `innerHTML` and execution of the injected script are not modelled. Only the content strings are. Elements nested inside injected markup that carry a reserved id are not seen by the model's `querySelector`, which looks only at the children of head and body.
- `addCodeModule` called with a name other than html, css or js is not modelled (the code would add a new key and dispatch nothing). Only the three buttons call it.
- The item list (src/pages/index.tsx) is a thin wrapper over a list hook. Its key fallback (line 22) becomes the `id` parameter of the `EditItem` constructor.
