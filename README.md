# DreamRoom AI — decision logic, modelled in Dafny

DreamRoom AI lets a signed-in user upload a photo of a room, stores the
resulting design with a hosted backend, lists the user's designs on a
dashboard and answers free-text room commands. This project models the parts
of it that make decisions of their own.

- **Command resolver** (`assistant.dfy`, module `Assistant`): the body of
  `POST /api/ai-assistant`. The command is lower-cased. It is matched against
  the ordered `responses` table of five phrase keys, and the first key that
  occurs wins. If none occurs, three fallback tiers are tried: "add", then
  "change"/"color", then "light"/"bright". The last answer is the `unknown`
  descriptor. The result is wrapped in the `{success, response, action, data}`
  envelope. A `command` that is not a string makes `toLowerCase` throw, and
  the catch-all answers with the failure envelope. `Post` is the loop with
  `break` that the route runs. `Resolve` is the function it is proved against.
- **Application store** (`store.dfy`, module `Store`): the store object with
  its six fields and its actions, as a class `AppStore`. Each action's
  `ensures` gives the whole new state as an update of the old one. The
  `partialize` projection is the `Partialize` function.
- **Dashboard handlers** (`dashboard.dfy`, module `Dashboard`): delete by id
  and toggle public/private over the page's own card list.
- **Upload page** (`upload.dfy`, module `Upload`): `generateSlug`, the image
  filter used by dropping and choosing files, the drag hover flag, `removeFile`, and
  `handleUpload`. In `handleUpload`, the guard order, the state flags, the
  default title, the tags, the visibility and the slug of the new design are
  modelled.
- Shared pieces: `lists.dfy` holds the id-keyed `filter`/`find`/`map`
  operations that the store and the dashboard both use. `ascii.dfy` holds
  `toLowerCase`, `includes`, `startsWith` and decimal rendering. `wrappers.dfy`
  holds `Option` and the `{data, error}` result. `ui.dfy` holds the toast
  value.

External collaborators are parameters of `Upload.UploadPage.HandleUpload`:
the storage upload, the AI description, the 3D generation and the design
insert are function arguments, and the two `Date.now()` readings are `nat`
arguments. The signed-in user is an argument as well, because it comes from
the auth context. Logging, toasts being displayed, router navigation and
timer delays are not modelled. The toast a handler raises is returned as a
value.

The route's catch-all turns any exception into the HTTP 500 failure
envelope. A request whose `command` is missing or not a string makes
`toLowerCase` throw inside the `try` (app/api/ai-assistant/route.ts:51 and
93-102), so the caller gets that envelope (`Assistant.Post`, `command ==
None`).

## Model

| member | source | states |
|---|---|---|
| Ascii.LowerStr | app/api/ai-assistant/route.ts:51 | lower-casing keeps the length and maps each character through the ASCII lower-case mapping |
| Ascii.LowerStrIdempotent | app/api/ai-assistant/route.ts:51 | lower-casing an already lower-cased command changes nothing |
| Ascii.LowerStrAppend | app/upload/page.tsx:77 | lower-casing works character by character, so it distributes over concatenation |
| Ascii.NoUpperLowerStr | app/api/ai-assistant/route.ts:58 | `key.toLowerCase()` is the identity on a string without capitals |
| Ascii.StartsWith | app/api/ai-assistant/route.ts:58 | `startsWith`: the key is a prefix of the string; `Contains` is built on it |
| Ascii.Contains | app/api/ai-assistant/route.ts:58 | `includes`: the key starts at some position of the string; `ContainsIffOccurs` relates it to the by-position definition |
| Ascii.ContainsIffOccurs | app/api/ai-assistant/route.ts:58 | `includes` holds exactly when the key occurs at some position of the command |
| Ascii.NatToString | app/upload/page.tsx:144 | the rendering of `Date.now()` is a non-empty run of decimal digits without a leading zero |
| Ascii.NatToStringRoundTrip | app/upload/page.tsx:144 | reading the rendered digits back gives the clock value |
| Assistant.FirstMatch | app/api/ai-assistant/route.ts:57-62 | the table scan finds nothing exactly when no key occurs; otherwise it returns the descriptor of the first key that occurs |
| Assistant.Fallback | app/api/ai-assistant/route.ts:65-81 | the fallback answer is always tagged `suggestion` or `unknown`, and `unknown` only as the default descriptor itself |
| Assistant.Resolve | app/api/ai-assistant/route.ts:51-81 | the resolved descriptor is tagged `unknown` exactly when it is the default descriptor; `EarliestKeyWins`, `FallbackTiers` and `FallbackIffNoKey` state how it is chosen |
| Assistant.Post | app/api/ai-assistant/route.ts:50-103 | a non-string command gives the failure envelope; otherwise `success` holds, `data` is the resolved descriptor, and `response` and `action` are its message and action |
| Assistant.KeysAreLowerCase | app/api/ai-assistant/route.ts:14-48 | every table key is already lower case, so lower-casing it inside the loop changes nothing |
| Assistant.CannedActions | app/api/ai-assistant/route.ts:14-48 | no canned descriptor is tagged `unknown` or `suggestion` |
| Assistant.EarliestKeyWins | app/api/ai-assistant/route.ts:57-62 | when several keys occur, the earliest-declared one decides the descriptor |
| Assistant.CaseInsensitive | app/api/ai-assistant/route.ts:51-58 | resolving a command gives the same descriptor as resolving its lower-cased form |
| Assistant.AddSofaAnywhere | app/api/ai-assistant/route.ts:15-22 | a command containing "add sofa" in any case yields `add_furniture` with item `modern_sofa`, style `modern` and colour `gray` |
| Assistant.AddPlantWins | app/api/ai-assistant/route.ts:28-34 | without the two earlier keys, a command containing "add plant" yields the plant descriptor |
| Assistant.FallbackTiers | app/api/ai-assistant/route.ts:65-82 | with no key present: "add" gives the add suggestion; else "change" or "color" gives the colour suggestion; else "light" or "bright" gives the lighting suggestion; else `unknown` |
| Assistant.FallbackIffNoKey | app/api/ai-assistant/route.ts:65 | the answer is a suggestion or `unknown` exactly when no table key occurs |
| Assistant.EmptyCommandIsUnknown | app/api/ai-assistant/route.ts:52-55 | the empty command gets the "be more specific" descriptor |
| Assistant.SofaBeforeCoffeeTable | app/api/ai-assistant/route.ts:14-62 | "add sofa and add coffee table" yields the sofa descriptor |
| Assistant.PlantBeforeBrighter | app/api/ai-assistant/route.ts:28-62 | "add plant, make it brighter" yields `add_decoration` |
| Lists.Without | lib/store.ts:101 | the filter keeps only elements with another key, keeps each of them, and shrinks the list by the number of matches |
| Lists.WithoutAppend | lib/store.ts:101 | filtering distributes over concatenation, so the kept elements keep their order |
| Lists.WithoutAbsent | lib/store.ts:101 | filtering out a key no element has leaves the list unchanged |
| Lists.WithoutIdempotent | lib/store.ts:101 | filtering out the same key twice is the same as once |
| Lists.Find | app/dashboard/page.tsx:80 | `find` gives nothing exactly when no element has the key; otherwise it gives the first such element |
| Lists.FindUnique | app/dashboard/page.tsx:80 | with unique keys, `find` returns the element at any index holding the key |
| Lists.Replace | lib/store.ts:92-94 | the map keeps the length; elements with the key are transformed and the others are kept as they are |
| Lists.ReplaceAbsent | app/dashboard/page.tsx:83-85 | mapping at a key no element has leaves the list unchanged |
| Store.MergeNoChanges | lib/store.ts:93 | spreading an empty update over a design changes nothing |
| Store.MergeIdempotent | lib/store.ts:93 | spreading the same update twice is the same as once |
| Store.Merge | lib/store.ts:93 | `{ ...d, ...updates }`; `MergeNoChanges`, `MergeIdempotent` and `MergeOverrides` state its meaning |
| Store.MergeOverrides | lib/store.ts:93 | for each of the ten design properties, the one carried by the update wins and a missing one keeps the design's value |
| Store.Partialize | lib/store.ts:120-124 | the record kept in local storage; `PartializeDeterminedBy` and `PartializeIgnoresTransient` state its meaning |
| Store.PartializeDeterminedBy | lib/store.ts:120-124 | two stores persist the same record exactly when they agree on the user, the authentication flag and the designs |
| Store.PartializeIgnoresTransient | lib/store.ts:120-124 | the current design, the loading flag and the error never affect what is persisted |
| Store.RemoveById | lib/store.ts:101 | `designs.filter(d => d.id !== id)`, the list `Lists.Without` describes; `Store.DeleteKeepsOthers` states its meaning |
| Store.UpdateById | lib/store.ts:92-94 | `designs.map(d => d.id === id ? { ...d, ...updates } : d)`, the list `Lists.Replace` describes; `Store.UpdateShape` states its meaning |
| Store.AppStore.constructor | lib/store.ts:53-65 | the store starts with no user, not authenticated, no designs, no current design, not loading and no error |
| Store.AppStore.SetUser | lib/store.ts:67-70 | sets the user and sets `isAuthenticated` to whether there is one; nothing else changes |
| Store.AppStore.SetAuthenticated | lib/store.ts:72-75 | sets only the authentication flag |
| Store.AppStore.SetDesigns | lib/store.ts:77-80 | replaces only the design list |
| Store.AppStore.AddDesign | lib/store.ts:82-87 | the new design is prepended; the length grows by one and the old list follows unchanged; nothing else changes |
| Store.AppStore.UpdateDesign | lib/store.ts:89-96 | only the design list changes, to the update applied at that id |
| Store.AppStore.DeleteDesign | lib/store.ts:98-103 | only the design list changes, to the designs without that id |
| Store.AppStore.SetCurrentDesign | lib/store.ts:105-108 | sets only the current design; the persisted projection is unchanged |
| Store.AppStore.SetLoading | lib/store.ts:110 | sets only the loading flag; the persisted projection is unchanged |
| Store.AppStore.SetError | lib/store.ts:111 | sets only the error; the persisted projection is unchanged |
| Store.AppStore.Reset | lib/store.ts:113-116 | every field returns to the initial state |
| Store.DeleteKeepsOthers | lib/store.ts:98-103 | a design survives a delete exactly when its id differs; the length drops by the number of designs with the id |
| Store.DeleteAbsent | lib/store.ts:98-103 | deleting an id no design has leaves the list unchanged |
| Store.DeleteTwice | lib/store.ts:98-103 | a second delete of the same id does nothing |
| Store.AddThenDelete | lib/store.ts:82-103 | adding a design with a fresh id and then deleting that id restores the list |
| Store.UpdateShape | lib/store.ts:89-96 | an update keeps length and order; designs with another id are unchanged and designs with the id are merged with the update |
| Store.UpdateTwice | lib/store.ts:89-96 | applying the same update to the same id twice is the same as once |
| Dashboard.DashboardPage.constructor | app/dashboard/page.tsx:22-56 | the page starts with its three sample designs |
| Dashboard.DashboardPage.HandleDeleteDesign | app/dashboard/page.tsx:69-76 | the list becomes the cards without that id, and the "Design deleted" toast is raised |
| Dashboard.DashboardPage.HandleTogglePublic | app/dashboard/page.tsx:78-93 | the list becomes the toggled list, and the toast follows the new status |
| Dashboard.WithoutCard | app/dashboard/page.tsx:71 | the filter by id, the list `Lists.Without` describes; `Dashboard.DeleteKeepsOthers` states its meaning |
| Dashboard.NewPublicStatus | app/dashboard/page.tsx:80-81 | `!design?.isPublic`: the negation of the first card with the id, and `true` when no card has it |
| Dashboard.SetPublic | app/dashboard/page.tsx:83-85 | the map that sets `isPublic` on the cards with the id, the list `Lists.Replace` describes |
| Dashboard.Toggled | app/dashboard/page.tsx:80-85 | the list after a toggle; `ToggleShape`, `ToggleFlipsFirst`, `ToggleAbsent` and `ToggleTwice` state its meaning |
| Dashboard.ToggleToast | app/dashboard/page.tsx:87-92 | the public toast when the new status is public, the private one otherwise; `ToggleAbsent` and `HandleTogglePublic` use it |
| Dashboard.DeleteKeepsOthers | app/dashboard/page.tsx:71 | deleting keeps the cards with another id, every one of them, in their order |
| Dashboard.DeleteAbsent | app/dashboard/page.tsx:71 | deleting an id not in the list leaves it unchanged |
| Dashboard.ToggleShape | app/dashboard/page.tsx:83-85 | a toggle keeps length and order and changes only `isPublic` of the cards with the id |
| Dashboard.ToggleFlipsFirst | app/dashboard/page.tsx:80-85 | every card with the id gets the negation of the first such card's old visibility |
| Dashboard.ToggleAbsent | app/dashboard/page.tsx:80-88 | toggling an absent id leaves the list unchanged, yet the new status is public and the "Design made public" toast is chosen |
| Dashboard.ToggleTwice | app/dashboard/page.tsx:78-85 | on a list with unique ids, toggling twice restores the list |
| Upload.SkipSeparators | app/upload/page.tsx:78 | dropping a run of separators leaves a suffix that starts with a letter or digit, and drops no letter or digit |
| Upload.Collapse | app/upload/page.tsx:78 | after replacing separator runs, only `[a-z0-9-]` remains, there is no double hyphen, the letters and digits are kept in order, and the first character is kept or becomes a hyphen |
| Upload.CollapseAppend | app/upload/page.tsx:78 | after a letter or digit the replacement works on the two parts independently |
| Upload.CollapseLeadingRun | app/upload/page.tsx:78 | a leading run of separators before a letter or digit (or the end) becomes exactly one hyphen |
| Upload.CollapseJoin | app/upload/page.tsx:78 | a maximal run of separators between letters or digits (or the ends) becomes exactly one `-` in its place, and the text around it is collapsed on its own |
| Upload.TrimHyphens | app/upload/page.tsx:79 | the trim of one edge hyphen at each end; `TrimHyphensStrips` states its meaning |
| Upload.TrimHyphensStrips | app/upload/page.tsx:79 | the input is at most one hyphen, the result, and at most one hyphen; a hyphen at either end goes, and one at each end of a string of two or more characters both go; a string without edge hyphens is unchanged |
| Upload.TrimKeepsAlnums | app/upload/page.tsx:79 | trimming keeps every letter and digit |
| Upload.TrimCollapsed | app/upload/page.tsx:79 | trimming the edge hyphens of a collapsed string leaves a well-formed slug with the same letters and digits |
| Upload.GenerateSlug | app/upload/page.tsx:75-80 | lower-case, collapse the separator runs, trim; the lemmas below state its meaning |
| Upload.SlugIsWellFormed | app/upload/page.tsx:75-80 | a slug holds only `[a-z0-9-]`, never starts or ends with a hyphen and never holds two in a row |
| Upload.SlugKeepsAlnums | app/upload/page.tsx:76-78 | the slug's letters and digits are exactly those of the lower-cased title, in order |
| Upload.SlugJoinsWords | app/upload/page.tsx:75-80 | two words joined by any run of separators give the two lower-cased words joined by one hyphen |
| Upload.WordsJoin | app/upload/page.tsx:78-79 | two lower-case words around a separator run collapse and trim to the words around one hyphen |
| Upload.CollapseFixedPoint | app/upload/page.tsx:78 | the separator replacement leaves a string of `[a-z0-9-]` without double hyphens unchanged |
| Upload.SlugFixedPoint | app/upload/page.tsx:75-80 | a well-formed slug is its own slug |
| Upload.SlugIdempotent | app/upload/page.tsx:75-80 | generating a slug from a slug changes nothing |
| Upload.ImageFiles | app/upload/page.tsx:56-58 | the filter keeps only images, keeps every image, and never grows the list |
| Upload.ImageFilesAppend | app/upload/page.tsx:66-68 | the filter distributes over concatenation, so the images keep their order |
| Upload.ImageFilesOfImages | app/upload/page.tsx:56-58 | a list of images passes the filter unchanged |
| Upload.Selection | app/upload/page.tsx:60-62 | if an offered file is an image, the selection becomes the offered images; if none is, the selection is unchanged |
| Upload.DropIndex | app/upload/page.tsx:197-199 | an in-range index removes exactly that element; an out-of-range index leaves the list unchanged |
| Upload.DesignTitle | app/upload/page.tsx:143 | the design title is the room title when that is non-empty, and it is never empty |
| Upload.DesignSlug | app/upload/page.tsx:144 | the title's slug, a hyphen and the clock reading; `DesignSlugShape` states its meaning |
| Upload.StoragePath | app/upload/page.tsx:106 | the storage path template; `StoragePathShape` states its meaning |
| Upload.StoragePathShape | app/upload/page.tsx:106 | the file is stored in the user's folder, under a name that ends with a hyphen and the file's own name |
| Upload.NewDraft | app/upload/page.tsx:143-164 | the record handed to `createDesign`; `DraftShape` and `DesignSlugShape` state its meaning |
| Upload.DraftShape | app/upload/page.tsx:143-163 | the draft's title is the room title or "My Room Design", its tags are the room type and "ai-generated", it is private, and its slug is `[a-z0-9-]` text |
| Upload.DesignSlugShape | app/upload/page.tsx:144 | the design slug is the title's slug, a hyphen, then digits that read back as the clock value |
| Upload.SymbolTitleSlug | app/upload/page.tsx:144 | a title without letters or digits gives a design slug that is a hyphen followed by the clock digits |
| Upload.FailureToast | app/upload/page.tsx:182-187 | the destructive "Upload failed" toast, whose description is the error message when there is one and is never empty |
| Upload.UploadPage.constructor | app/upload/page.tsx:24-33 | the page starts with the hover flag off, no files, idle flags, zero progress, empty title and description, and room type `living_room` |
| Upload.UploadPage.HandleDrag | app/upload/page.tsx:41-49 | `dragenter` and `dragover` turn the hover flag on, `dragleave` turns it off, any other event keeps it, and nothing else changes |
| Upload.UploadPage.HandleDrop | app/upload/page.tsx:51-63 | the hover flag goes off, the selection becomes the dropped images when there are any, and nothing else changes |
| Upload.UploadPage.HandleFileChange | app/upload/page.tsx:65-73 | the same rule for chosen files; a missing file list counts as empty |
| Upload.UploadPage.RemoveFile | app/upload/page.tsx:197-199 | the selection loses the element at the index, if the index is in range |
| Upload.UploadPage.AnimateProgress | app/upload/page.tsx:109-112 | the progress loop ends at 100 and changes nothing else |
| Upload.UploadPage.HandleUpload | app/upload/page.tsx:82-189 | with no user it stops before the file check; with no file it stops; neither changes state. Otherwise it states the storage path, the draft sent to the insert, the outcome, the toast and the final flags for a storage failure, an insert failure and a success |
| Upload.UploadPage.FinishUpload | app/upload/page.tsx:128-187 | the part of `handleUpload` after the photo is stored: the description default, the draft, and on an insert failure or a success the outcome, the toast and the whole new state |

## Left out

- `GET /api/ai-assistant`, the request's JSON decoding, the logging and the one-second delay in `POST`: these are I/O and timers. The command field is modelled as `Option<string>`.
- The delegated resolver in `lib/ai-services.ts` is not part of this model. It is a language-model API call whose JSON output is returned unvalidated.
- `lib/supabase.ts`, `app/api/upload-room/route.ts`, the sign-in, landing, editor and public design pages, and the navigation, layout, sitemap and robots files are not part of this model. They are backend calls, mock payloads, markup or static configuration.
- Ascii.LowerStr: maps only ASCII capitals, while JavaScript's `toLowerCase` maps all of Unicode. Every non-ASCII character counts as a slug separator either way. The model misses the rare non-ASCII capitals that lower-case to ASCII letters, such as the Kelvin sign.
- Assistant.CaseInsensitive: holds for the ASCII model of lower-casing only, for the same reason.
- Store: the `persist` middleware's local-storage writes and the `useAuth`/`useDesigns`/`useUI` selector hooks are framework plumbing. Only the `partialize` projection is modelled.
- Store.Merge: a `Partial<Design>` property that is present but explicitly `undefined` is modelled as absent. The spread would copy the `undefined`.
- Store.Design and Upload.SceneState: `designState` is `any` in the source. The store keeps it as serialised text. The upload draft models only the fixed fields the page writes.
- Upload.FileInfo: a browser `File` is modelled by its name, MIME type and size. `formatFileSize` uses floating-point logarithms and is left out.
- Upload.UploadPage.RemoveFile: a non-integer index (a JavaScript number such as 1.5) is not modelled. The index is an `int`.
- Upload.UploadPage.HandleUpload: the timer delays, the awaits and the concurrency between them are not modelled. The external calls cannot throw in the source, or they report errors through their result; they are modelled as total functions. `handleViewDesign` and the sign-in redirect effect only navigate.
- Upload.UploadPage.AnimateProgress: the intermediate `setProgress` values are only visible between awaited delays. The model states the final value, 100, and the loop invariant tracks the rest.
