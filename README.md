# TodoSwiftUI record store, modelled in Dafny

TodoSwiftUI is a small to-do list app. Its one piece of logic is the record store, the
`Observer` class. It keeps an in-memory list `datas` of to-do entries (`Type`: id, title,
message, time, day) in step with the records of a persistence context. It does this in four
operations:

- construction loads every stored record;
- `add` inserts a record and saves;
- `delete` and `update` fetch every record and act on the matching ones, saving after each.

The edit sheet's Save button chooses between `update` and `add`.

The model has three modules:

- `Records` (`records.dfy`): the entry type and the sequence operations it is specified with.
  These are the set of ids, the first index with an id, removal at an index, retitling and
  dropping by id.
- `Effects` (`effects.dfy`): the state as a `Snapshot` of `store` and `datas`.
  - For each operation, `...Effect` states the outcome in one piece.
  - For each loop, `...Sweep` follows the source record by record, and a lemma proves the two
    equal.
  - The remaining lemmas state what each operation promises.
- `TodoStore` (`observer.dfy`): the class `Observer`.
  - It has the fields `datas` and `store`. The methods update them in place with the source's
    loops, and each method is proved to produce its `...Effect`.
  - `SaveTapped` is the Save button.

`store` stands for what a fetch from the persistence context returns, in fetch order, with the
context's unsaved changes included. So a record inserted by `add` stays in `store` when the save
fails, while `datas` is not appended. Each call takes two inputs, `fetchOk` and `saveOk`: whether
its fetch succeeds, and whether its saves succeed. A thrown error ends the call, as the source's
`catch` does. `delete` as written does not simply delete the first record: it keeps
deleting records from the front of the fetch order until it reaches one whose id occurs in
`datas`. The fetch order is modelled as insertion order, new records last (see "## Left out").

## Model

| member | source | states |
|---|---|---|
| `TodoStore.Observer.constructor` | TodoSwiftUI/ContentView.swift:198-218 | After a successful fetch, `datas` holds every fetched record in fetch order, so the list mirrors the store; after a failed fetch it is empty. |
| `Effects.LoadedMirrors` | TodoSwiftUI/ContentView.swift:205-217 | Loading mirrors the table record for record when the fetch succeeds, and leaves the list empty when it fails. |
| `TodoStore.Observer.Add` | TodoSwiftUI/ContentView.swift:219-245 | The record built from title, message and date stamp always joins the store; it is appended to `datas` only after a successful save; after a successful save, a mirrored store stays mirrored. |
| `Effects.AddAppends` | TodoSwiftUI/ContentView.swift:231-241 | A successful add grows the list by one, keeps every earlier entry, and ends it with a record carrying the date's id, time and day and the typed title and message. |
| `Effects.AddFailureKeepsList` | TodoSwiftUI/ContentView.swift:239-244 | A failed save leaves `datas` unchanged while the inserted record stays in the context. |
| `Effects.AddThenReload` | TodoSwiftUI/ContentView.swift:198-245 | Round trip: reloading after a successful add to a mirrored store rebuilds exactly the list that add produced. |
| `TodoStore.Observer.Delete` | TodoSwiftUI/ContentView.swift:247-274 | `delete` as written produces `DeleteEffect`: records are deleted from the front of the fetch order up to the first one whose id is in `datas`, and the first entry with that id is removed. The list loses at most one entry. |
| `Effects.DeleteSweepIsEffect` | TodoSwiftUI/ContentView.swift:255-269 | The record-by-record loop of `delete` computes the closed-form effect. |
| `Effects.DeleteRemovesFirstShared` | TodoSwiftUI/ContentView.swift:255-266 | With fetch and saves succeeding, the store keeps exactly the records after the first record whose id is in `datas`, and the removed entry is the first one with that id. |
| `Effects.DeleteNoSharedClearsStore` | TodoSwiftUI/ContentView.swift:255-269 | When no stored id occurs in `datas`, the loop deletes every record and leaves `datas` alone. |
| `Effects.DeleteRemovesAtMostOne` | TodoSwiftUI/ContentView.swift:261-266 | For every outcome of fetch and save, `datas` is unchanged or loses exactly one entry, the others keeping their order. |
| `Effects.DeleteKeepsStoreSuffix` | TodoSwiftUI/ContentView.swift:254-274 | The store only ever loses a prefix of its records. |
| `Effects.DeleteIgnoresId` | TodoSwiftUI/ContentView.swift:256-257 | The result of `delete` does not depend on its id argument. |
| `Effects.DeleteEmptyStore` | TodoSwiftUI/ContentView.swift:254-255 | With no stored records, `delete` changes nothing. |
| `Effects.DeleteMirroredDropsFirst` | TodoSwiftUI/ContentView.swift:255-266 | On a mirrored store, after a successful fetch and save, `delete` removes the first entry from both sides whatever id it is given, and the store stays mirrored. |
| `Effects.DeleteTargetCounterexample` | TodoSwiftUI/ContentView.swift:256-257 | With ids "1", "2", "3" mirrored and fetched in that order, `delete("2")` as written leaves "2" and "3", and the corrected delete leaves "1" and "3". |
| `TodoStore.Observer.DeleteById` | TodoSwiftUI/ContentView.swift:247-274 | The corrected delete, comparing against the argument, produces `DeleteByIdEffect`. |
| `TodoStore.Observer.DeleteMatching` | TodoSwiftUI/ContentView.swift:255-269 | The corrected delete's loop, over the fetched records, produces the record-by-record sweep. |
| `Effects.DeleteByIdSweepIsEffect` | TodoSwiftUI/ContentView.swift:255-269 | The corrected delete's record-by-record loop computes its closed-form effect. |
| `Effects.DeleteByIdMirrored` | TodoSwiftUI/ContentView.swift:255-266 | On a mirrored store holding the id, after a successful fetch and save, the corrected delete removes the first entry with that id from both sides, keeps all others in order, and stays mirrored. |
| `Effects.DeleteByIdOnlyTarget` | TodoSwiftUI/ContentView.swift:257-266 | The corrected delete keeps every record with another id, in number and in order (what dropping the id keeps is unchanged), and leaves `datas` alone when no entry carries the id. |
| `Effects.DeleteByIdRemovesTarget` | TodoSwiftUI/ContentView.swift:255-259 | When some stored record carries the id and the fetch succeeds, the corrected delete deletes at least one record, whether or not the save succeeds. |
| `TodoStore.FindEntry` | TodoSwiftUI/ContentView.swift:261-265 | The inner search returns the index of the first entry with the id, or the list's length exactly when no entry carries it. |
| `TodoStore.Observer.Update` | TodoSwiftUI/ContentView.swift:276-304 | `update` produces `UpdateEffect`: every stored record with the id and, once one exists, every entry with it get the new title and message. A failed save stops after the first record. After a successful fetch and save, a mirrored store stays mirrored. |
| `TodoStore.Observer.RetitleMatching` | TodoSwiftUI/ContentView.swift:283-299 | The loop of `update`, over the fetched records, produces the record-by-record sweep. |
| `TodoStore.Observer.RetitleEntries` | TodoSwiftUI/ContentView.swift:291-296 | The inner loop retitles exactly the entries of `datas` with the id and leaves the store alone. |
| `Records.RetitledMeaning` | TodoSwiftUI/ContentView.swift:291-296 | Retitling keeps every entry's id, time and day, leaves entries with another id unchanged, and gives those with the id the new title and message. |
| `Records.RetitledIdempotent` | TodoSwiftUI/ContentView.swift:284-297 | Repeating the inner retitling, as the loop does for every matching record, changes nothing further. |
| `Effects.UpdateSweepIsEffect` | TodoSwiftUI/ContentView.swift:283-299 | The record-by-record loop of `update` computes its closed-form effect. |
| `Effects.UpdateShape` | TodoSwiftUI/ContentView.swift:286-296 | `update` keeps lengths, ids, times and days, leaves entries with other ids untouched, and gives matching entries the new title and message when the store holds the id and fetch and save succeed. |
| `Effects.UpdateAbsentNoop` | TodoSwiftUI/ContentView.swift:284-297 | Updating an id that no stored record carries changes nothing. |
| `Effects.UpdateIdempotent` | TodoSwiftUI/ContentView.swift:276-304 | Calling `update` twice with the same arguments and outcomes equals calling it once. |
| `Effects.UpdateKeepsMirrored` | TodoSwiftUI/ContentView.swift:284-297 | A successful update keeps a mirrored store mirrored. |
| `TodoStore.SaveTapped` | TodoSwiftUI/ContentView.swift:133-138 | The Save button updates the selected entry when its id is non-empty and adds a new entry otherwise. |
| `Effects.SaveExistingEditsInPlace` | TodoSwiftUI/ContentView.swift:133-134 | Saving an entry that has an id keeps the list's length and every entry's id. |
| `Effects.SaveBlankAppends` | TodoSwiftUI/ContentView.swift:135-136 | Saving a blank entry with a successful save appends one record with the typed title and message. |

## Left out

- The views (list, cells, edit sheet, gestures, animations) are UI layout, not logic. The one
  view rule kept is the Save button's choice between `update` and `add`.
- The delete button in each cell calls `delete` only for a non-empty id (ContentView.swift:99-101). The cell view is not part of this model.
- Formatting the date is not modelled: `Stamp` is given as three strings. These are the epoch
  seconds used as the id, the `hh:mm a` time and the `dd/MM/YY` day.
- The persistence context's API (fetch request, `NSManagedObject` key-value access, `as!`
  casts) is abstracted as the sequence `store` of typed records. A cast that fails at run time
  cannot arise in the model.
- Errors are inputs. `fetchOk` and `saveOk` say whether a call's fetch and its saves succeed.
  One outcome covers all saves of a call, so a save that fails after earlier saves of the same
  call succeeded is not modelled. Printing the error is not modelled.
- Fetch order: the fetch requests set no sort order, so the order of a fetch is not guaranteed.
  The model treats `store` as one stable sequence in insertion order, with new records last.
  "From the front" in `delete`, the Findings example, and the exact list equalities of
  `Effects.AddThenReload` and `Effects.DeleteMirroredDropsFirst` all assume that order.
- Id comparison: Swift compares strings by Unicode canonical equivalence, and the model compares
  them character by character. The two agree on the ids the app creates, which are ASCII
  renderings of epoch seconds, but the model lets an id be any string.
- `TodoStore.Observer.Update`: its `date` parameter is unused, as in the source.
- `@Published` change notification and the app delegate lookup are framework plumbing.
- Concurrent access and the contents of the persistent store across app launches are not
  modelled.

## Findings

| source | as written | input that shows it | evidently intended | confidence | as-written member | corrected member |
|---|---|---|---|---|---|---|
| TodoSwiftUI/ContentView.swift:256-257 | The loop declares its own `id` from the fetched record, hiding the argument. The test then compares the record's id with itself, so every record matches. Records are deleted in fetch order up to and including the first one whose id is in the list, and that id's first entry leaves the list; when no stored id is listed, every record is deleted. | Stored and listed ids "1", "2", "3", fetched in that order; `delete("2")` removes "1" and keeps "2". | Delete only the records whose id equals the argument, as `update` compares. `delete("2")` then leaves "1" and "3". | not executed | `TodoStore.Observer.Delete`, `Effects.DeleteTargetCounterexample` | `TodoStore.Observer.DeleteById`, `Effects.DeleteByIdMirrored` |
