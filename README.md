# Residents' portal core, modelled in Dafny

The portal is a small Flask application for the residents of one building.
It stores everything (users, news posts, reactions, info items, the parking
configuration and state, guest requests, invites) as JSON documents, one
file per collection under `data/`. This project models the part of it that
decides what is stored and what the residents see:

- `json.dfy` (`JsonValues`): JSON values and the Python operations the
  core applies to them: truthiness, `dict.get`, `str.strip`, ASCII
  `str.lower`, `str()` of scalars, and list filtering.
- `store.dfy` (`DocumentStore`): the document store. A `Store` class holds
  the files as a map from path to content. It models `load_json` (with its
  fallback to the `.bak` copy), `save_json` (backup copy, temporary file,
  atomic rename, clean-up; each step may fail), the `load_*`/`save_*`
  wrappers with their defaults, `save_guests`, and `load_parking_state`
  with its expiry sweep and write-back.
- `parking.dfy` (`Parking`): the parking state as the `spots` and
  `subscriptions` maps. It models the expiry sweep and its notifications,
  plus the map logic of the occupy, free, subscribe and unsubscribe
  handlers.
- `reactions.dfy` (`Reactions`): the reaction toggle of the `react` handler.
- `guests.dfy` (`GuestLookup`): `find_guest_by_phone`, meaning which guest
  request a phone number logs in as.
- `sidebar.dfy` (`Sidebar`): `_normalize_show_on`, `info_item_visible` and
  `get_sidebar_items`.
- `helpers.dfy` (`Helpers`): `normalize_phone`, id allocation, `paginate`,
  the `ru_date` filter, `allowed_file`, `_is_legacy_sha256_hash` and
  `user_has_any_pin`.

The clock, `datetime.fromisoformat`, the random hex token of a temporary
file and the failures of file operations are parameters (`now`, `parse`,
`token`, `faults`). Telegram notifications are not sent. They are recorded
as `Parking.Notice` values.

## Model

| member | source | states |
|---|---|---|
| JsonValues.TrimLeftDrops | app.py:1885 | `lstrip` removes exactly a leading run of whitespace; the result starts with a non-space |
| JsonValues.TrimRightDrops | app.py:1885 | `rstrip` removes exactly a trailing run of whitespace; the result ends with a non-space |
| JsonValues.StripSlice | app.py:1885 | `strip()` gives a slice of its input; only whitespace is dropped on either side, and the result neither starts nor ends with whitespace |
| JsonValues.Without | app.py:1749 | `[c for c in xs if c != x]` holds no `x` and keeps every other element as often as before |
| JsonValues.WithoutAbsent | app.py:1749 | filtering out a value that is not in the list returns the list unchanged |
| JsonValues.WithoutAppended | app.py:1749 | appending the removed value itself changes nothing |
| DocumentStore.PathsDistinct | app.py:158-159 | a file, its `.bak` and its `.tmp.<token>` are three different paths |
| DocumentStore.StemOf | app.py:188-223 | the collection name can be read back from its file, backup or temporary path |
| DocumentStore.CollectionPathsApart | app.py:188-223 | no collection's file or backup is another collection's file, backup or temporary file |
| DocumentStore.Loaded | app.py:127-151 | load returns the default for a missing file and the primary when it parses; it raises for a primary that is not UTF-8; for an empty or non-JSON primary it returns the backup when that parses, else the default |
| DocumentStore.BackupOnlyForBrokenPrimary | app.py:133-151 | the backup makes no difference when the primary is missing, parses, or is not UTF-8 |
| DocumentStore.AfterSave | app.py:154-184 | a save touches no file but the primary, its backup and its temporary file, and leaves the temporary file only when the save failed and its removal failed too; a copy cut short leaves what it wrote in the backup |
| DocumentStore.SaveOutcome | app.py:154-184 | after a successful save, the primary holds the new document; the backup holds the previous primary, is untouched when there was none or the copy failed before opening it, and holds the partial copy when the copy was cut short; no temporary file is left, and no other file changes |
| DocumentStore.FailedSaveOutcome | app.py:154-184 | a failed save leaves the primary as it was; it touches only the backup and, when clean-up also fails, leaves the temporary file |
| DocumentStore.LoadAfterSave | app.py:127-184 | loading right after a successful save returns what was saved |
| DocumentStore.PreviousVersionRecoverable | app.py:127-184 | after a successful save with a working backup copy, a primary that turns out empty or not JSON loads as the previous document |
| DocumentStore.FailedSaveKeepsLoad | app.py:127-184 | a failed save does not change what a load returns, provided the primary was missing, parsed or was not UTF-8, or the backup copy failed before touching the backup |
| DocumentStore.FailedSaveOverBrokenPrimary | app.py:127-184 | a failed save over an empty or non-JSON primary whose backup was good leaves no readable backup, whether the copy went through or was cut short, so the next load returns the default |
| DocumentStore.SaveIsolated | app.py:154-223 | saving one collection does not change what any other collection loads |
| DocumentStore.NormalizeGuests | app.py:334-337 | the saved guests document has a `guests` list; a missing or non-list value becomes `[]`, a list is kept, and every other key is kept |
| DocumentStore.NormalizeGuestsIdempotent | app.py:334-337 | normalising twice is normalising once |
| DocumentStore.Swept | app.py:283-286 | the state written back after a sweep is still a well-formed state, and still holds no `until` with a UTC offset when it held none |
| DocumentStore.SecondLoadQuiet | app.py:226-288 | after a load whose sweep was saved, the next load with the same clock reads the swept state, has nothing left to expire and sends no notification |
| DocumentStore.Store.constructor | app.py:127 | the store starts from the given files |
| DocumentStore.Store.LoadJson | app.py:127-151 | `load_json` returns `Loaded` of the current files (nothing for a raise) and changes nothing |
| DocumentStore.Store.SaveJson | app.py:154-184 | `save_json` succeeds exactly when the write and the rename work, and the files become `AfterSave` of the old files |
| DocumentStore.Store.Load | app.py:188-216 | each `load_*` wrapper loads its own file with its own default |
| DocumentStore.Store.Save | app.py:192-307 | each plain `save_*` wrapper saves to its own file |
| DocumentStore.Store.SaveGuests | app.py:334-337 | the caller's document is normalised, then saved |
| DocumentStore.Store.LoadParkingState | app.py:226-288 | a raise before the write-back (a file that is not UTF-8, a document of the wrong shape, a `until` with a UTC offset) is reported as malformed and nothing changes; otherwise every due notification is sent exactly once, and the state is written back exactly when some spot expired; the result is the swept state, or a failed save |
| Parking.SweepLabelLastMatch | app.py:240-244 | the sweep's label comes from the last configuration entry with the spot's id |
| Parking.SweepLabelUnknown | app.py:240-257 | an unknown spot is labelled "место <id>" |
| Parking.SweepLabel | app.py:240-257 | the sweep's label is "место <id>" or the label of a configuration entry with the spot's id |
| Parking.SweepSpot | app.py:246-281 | a spot is freed exactly when its `until` is set, parses to a naive time and lies before `now`; its owner is told when it carries a chat id, and its subscribers are told, and their entry dropped, when their list is truthy |
| Parking.Sweep | app.py:246-281 | for states whose `until` values all compare with the naive clock: the kept spots are exactly the unexpired ones; a subscription entry is dropped exactly for an expired spot with a truthy list; `changed` holds exactly when some spot expired; the notices sent are exactly the due ones, none repeated |
| Parking.SweepIdempotent | app.py:246-281 | after a sweep nothing has expired; sweeping again with the same clock keeps everything and sends nothing |
| Parking.DueNoticeShape | app.py:256-277 | every notice names an expired spot and is the owner's or the subscribers' notice that spot owes |
| Parking.SinglePosition | app.py:246-281 | in a trace without repeats, a notice occurs at exactly one position |
| Parking.OwnerToldOnce | app.py:259-266 | the owner of an expired spot is told exactly once if the spot has a chat id, and never otherwise |
| Parking.SubscribersToldOnce | app.py:268-277 | the subscribers of an expired spot are told exactly once, with their own list, if that list is truthy, and never otherwise |
| Parking.SubscriptionEntryFate | app.py:268-277 | an expired spot's subscription entry survives the sweep exactly when its list is falsy |
| Parking.Occupy | app.py:1540-1601 | a non-admin holding another spot is refused, naming a spot they hold; a spot held by another apartment is refused to a non-admin; a refusal changes nothing; otherwise exactly the spot's entry is rewritten, and a resident then holds no other spot |
| Parking.OccupiedEntry | app.py:1563-1601 | the entry occupy writes is one the sweep reads, with the stripped `until` and chat id; a hidden phone is stored as ""; "long_term" is `LongTermAfter`, and the apartment is "" exactly for an administrator's long-term entry, else the caller's |
| Parking.AwareUntilBlocksSweep | app.py:1529-1533 | an accepted `until` with a UTC offset is stored by occupy, and the state then holds an entry whose `dt < now` (app.py:256) raises, so no later sweep can run |
| Parking.ResidentEntry | app.py:1563-1579 | a non-admin neither sets nor clears `long_term`, and the entry carries their apartment |
| Parking.AdminEntry | app.py:1563-1578 | an administrator's "long_term" is the request's flag when it has the key, else the replaced entry's flag (false for a free spot), and a long-term entry stores "" as the apartment |
| Parking.FreeLabel | app.py:1642-1647 | the loop finds `FirstLabel`: the label of the first configuration entry with the spot's id (or the default when it has none); with no match it is "место <id>" |
| Parking.Free | app.py:1629-1661 | freeing a free spot only drops a stale subscription entry, saving exactly when there was one; a spot held by another apartment is forbidden to a non-admin and nothing changes; otherwise the spot is removed and its truthy subscriber list is told once, under the first-match label, and dropped |
| Parking.Subscribe | app.py:1703-1711 | a chat id is appended exactly when it is not yet on the list; afterwards it is on the list, and a list without duplicates stays without duplicates |
| Parking.Unsubscribe | app.py:1746-1755 | something changes exactly when the chat id is on the list; every occurrence is removed, and an emptied entry is dropped |
| Parking.UnsubscribeUndoesSubscribe | app.py:1703-1755 | unsubscribing a chat id that was just appended gives the old list back |
| Reactions.CleanEntry | app.py:1900-1909 | what the clean-up keeps of an entry is a list without the user, in which every other user appears as often as before; a list holding someone else is kept |
| Reactions.Cleaned | app.py:1899-1909 | after the clean-up every entry is a list without the user |
| Reactions.CleanedStep | app.py:1899-1909 | visiting one more key replaces or drops only that key |
| Reactions.CleanVisit | app.py:1900-1909 | the three branches of one visit give the cleaned map for one more key |
| Reactions.CleanPost | app.py:1899-1909 | the clean-up loop computes `Cleaned` of the post's map |
| Reactions.Reacted | app.py:1896-1913 | the toggle adds no key but the chosen emoji and keeps only list entries |
| Reactions.React | app.py:1885-1916 | an emoji that is not offered changes nothing and saves nothing; otherwise the post's entry becomes its map after the toggle and is saved |
| Reactions.ReactedShape | app.py:1896-1913 | after a reaction every entry is a list; the user appears only under the chosen emoji, and there exactly when it was not already theirs |
| Reactions.OthersUntouched | app.py:1899-1913 | every other user keeps each reaction exactly as often as before |
| Reactions.NoEmptyListsKept | app.py:1906-1913 | a post without empty lists keeps having none |
| Reactions.AlreadyInList | app.py:1896 | on a list, "already reacted" is list membership |
| Reactions.ReactTwice | app.py:1896-1913 | reacting twice with the same emoji restores whether the user had that reaction |
| GuestLookup.StrLessIrreflexive | app.py:369-374 | Python's string `<` is irreflexive |
| GuestLookup.StrLessTransitive | app.py:369-374 | Python's string `<` is transitive |
| GuestLookup.StrLessTotal | app.py:369-374 | Python's string `<` is total |
| GuestLookup.KeyLessIrreflexive | app.py:369-374 | the `(created_at, id)` order is irreflexive |
| GuestLookup.KeyLessTransitive | app.py:369-374 | the `(created_at, id)` order is transitive |
| GuestLookup.KeyLessTotal | app.py:369-374 | the `(created_at, id)` order is total |
| GuestLookup.BestIsFirstMaximum | app.py:383-385 | the scan finds the first candidate with the largest key, which is what a stable reverse sort puts first |
| GuestLookup.PoolNonEmpty | app.py:383 | `approved or matches` has a candidate exactly when some guest matches |
| GuestLookup.KeyOf | app.py:369-374 | the key is `created_at` (or "" when falsy) and the integer id, 0 when the id is falsy or `int()` rejects it |
| GuestLookup.FindGuestByPhone | app.py:351-385 | for a list whose guests are dicts, whose matching guests have a text or falsy status, and whose candidates compare: the result is the first candidate with the largest `(created_at, id)` key, or none when there is no candidate |
| GuestLookup.FoundGuest | app.py:351-385 | nothing is found exactly when no guest has the phone; the guest found has it, and is approved whenever an approved guest has it; a lone candidate is found whatever its `created_at` |
| Sidebar.NonBlankStripped | app.py:396-401 | the stripped non-blank strings of the list, no others, none blank |
| Sidebar.ShowOn | app.py:391-402 | a falsy value or another type names no places; a string names its stripped self; a list names its stripped non-blank strings, or nothing when it has none |
| Sidebar.FirstTruthy | app.py:413-419 | the `or` chain gives the value under the first key whose value is truthy, all earlier ones falsy; when none is truthy it gives the last key's value |
| Sidebar.InfoItemVisible | app.py:405-423 | an item with no placement key set is shown everywhere (the list, string and "all" cases are the lemmas below) |
| Sidebar.ShownWhereListed | app.py:391-423 | an item whose first truthy placement is a list is shown on a page exactly when one of its non-blank strings, stripped, is "all" or that page; a list without one means shown everywhere |
| Sidebar.ShownEverywhere | app.py:405-423 | an example: an item with `show_on: ["all"]` is shown on every page |
| Sidebar.ShownOnItsPage | app.py:391-423 | an item whose first truthy placement key holds one string is shown on that page, stripped, and, unless it is "all", on no other page |
| Sidebar.Insert | app.py:429 | inserting keeps the items (as a multiset) and keeps a sorted list sorted |
| Sidebar.SortByOrder | app.py:429 | the sort is sorted by `order` (10000 when absent) and a permutation of its input |
| Sidebar.SortIsStable | app.py:429 | items with equal `order` keep their relative order |
| Sidebar.VisibleItems | app.py:428 | the filter keeps every visible item exactly as often as it is listed and nothing else; a single item is kept exactly when it is visible |
| Sidebar.FilterAppend | app.py:428 | filtering two lists put together gives the two filters in order, so visible items keep their list order |
| Sidebar.Prefix | app.py:430 | `s[:limit]` has the length Python gives, also for a negative limit |
| Sidebar.SidebarItems | app.py:426-430 | the sidebar is a prefix of the sorted visible items; all of them when the limit is 0, and of the Python length otherwise |
| Sidebar.SidebarItemsShown | app.py:426-430 | the sidebar is sorted, shows only visible items, none more often than listed, and with limit 0 every visible item |
| Sidebar.SidebarTakesSmallestOrders | app.py:426-430 | no visible item left out of the sidebar has a smaller `order` than one shown |
| Helpers.Digits | app.py:344 | the result is digits only; one character is kept exactly when it is a digit |
| Helpers.DigitsAppend | app.py:344 | the digits of `a + b` are the digits of `a` followed by those of `b`, so every digit is kept in order |
| Helpers.DigitsOfDigits | app.py:344 | a digit string is kept as it is |
| Helpers.NormalizePhone | app.py:339-349 | the result is digits only; a domestic number (10 digits, or 11 starting with 8) becomes 7 followed by its last ten digits; anything else is its digits |
| Helpers.NormalizePhoneIdempotent | app.py:339-349 | normalising twice is normalising once |
| Helpers.SameNumberSamePhone | app.py:339-349 | two spellings of one domestic number normalise alike |
| Helpers.ParseInt | app.py:854 | `int(s)` succeeds exactly on optionally signed decimal digits after stripping, with their decimal value, negated after "-" |
| Helpers.NatTextValue | app.py:854 | the decimal text of a natural number is non-empty digits with that value |
| Helpers.ParseIntOfText | app.py:854 | `int(str(n)) == n` for every integer |
| Helpers.NextId | app.py:854 | a new id exists exactly when every id converts; it is above every id; for an empty list it is 1, otherwise one more than some id (so 0 or below when every id is negative) |
| Helpers.MaxId | app.py:854 | the largest id of a non-empty list is some item's id and no id exceeds it |
| Helpers.NextIdFresh | app.py:2025 | the new id is not taken |
| Helpers.Paginate | app.py:611-619 | `total` is the length; an empty list has one empty page; the page count is the ceiling; the page is clamped; the items are that page's slice, at most `per_page` of them |
| Helpers.CeilingDivision | app.py:615 | `(total + per_page - 1) // per_page` pages hold every item and none are spare |
| Helpers.ItemOnItsPage | app.py:611-619 | item `i` is item `i % per_page` of page `i // per_page + 1` |
| Helpers.Split | app.py:93 | `split` gives at least one piece and no piece holds the separator |
| Helpers.SplitJoin | app.py:93 | splitting a joined string gives the pieces back |
| Helpers.ZFill2 | app.py:94 | `zfill(2)` keeps a string of two or more characters; a shorter one is left-padded with "0" to two characters, after a leading sign |
| Helpers.ZFill2Value | app.py:94 | padding a number keeps it a number with the same value |
| Helpers.DateSplit | app.py:93 | a `Y-M-D` date splits into its three parts |
| Helpers.RuDateOfDate | app.py:88-96 | a date `Y-M-D` becomes `D-M-Y` with day and month padded |
| Helpers.RuDateTwice | app.py:88-96 | applying the filter twice to a date with two-character day and month gives it back |
| Helpers.RuDate | app.py:88-96 | "" stays ""; a value that is not three dash-separated parts is returned unchanged; a three-part value becomes one that splits into the padded day, the padded month and the year |
| Helpers.Extension | app.py:437 | the extension is what follows the last dot |
| Helpers.ExtensionOf | app.py:437 | the extension of `base.ext` is `ext` |
| Helpers.AllowedFile | app.py:436-437 | a name is allowed exactly when it has a dot with no dot after it and the text after that dot, lowered, is an allowed image type |
| Helpers.AllowedFileByLastExtension | app.py:436-437 | only the last extension decides |
| Helpers.IsLegacySha256Hash | app.py:496-499 | a legacy hash is exactly a string of 64 hex digits of either case |
| Helpers.LowerHexChar | app.py:499 | a lowered character is a lower-case hex digit exactly when it was a hex digit |
| Helpers.AnyResidentPin | app.py:563 | some resident entry is a dict with a truthy `pin_hash` |
| Helpers.UserHasAnyPin | app.py:557-565 | a record has a PIN exactly when it is a dict and it, or one dict entry of its `residents` list, has a truthy `pin_hash` |

## Left out

- File locking (`_json_lock`) and concurrency. The model is sequential, so the lock is a no-op.
- JSON text: indentation and key order. File contents are abstracted to empty, text that is not JSON, bytes that are not UTF-8, or a parsed document.
- Floating-point JSON numbers. Numbers are integers.
- `str()` of lists and dicts. No text is given for them.
- Unicode `str.isdigit`, whitespace and letter case. Only the ASCII range is modelled.
- Python `int()` on text with underscores or non-ASCII digits is not parsed.
- `datetime.fromisoformat` and the clock. They are the parameters `parse` and `now`; `parse` tells a naive time from one with a UTC offset, but its calendar is not modelled.
- Telegram I/O. Notifications are recorded as `Parking.Notice` values, never sent, and a failing send is not modelled (the source ignores it).
- The Flask glue: sessions, request parsing, redirects, HTTP status codes.
- Handler guards that come before the modelled logic: guest approval, `can_use_parking`/`can_subscribe_parking`, the unknown-spot check, the `bad_until` check, and the `is_guest` redirect in `react`.
- The chat-id lookup of occupy, and the user's name and key. They arrive in `OccupyRequest` or as parameters.
- Input shapes that would make Python raise are not modelled as exceptions:
  - In the handlers they are stated as `requires` (for example, spot entries that are dicts, or subscription entries that are lists or falsy).
  - In `LoadParkingState` they are the `Malformed` outcome.
- DocumentStore.Store.LoadParkingState: reports `Malformed` for any state or configuration the sweep could not read (including a `until` with a UTC offset), even when Python would not have reached the bad entry; and where Python would raise part-way through the loop after sending some notices, the model sends none.
- Parking.Occupy: when a resident holds several other spots, which one is reported is left open. Python reports the first in dict order.
- Parking.Sweep: requires every `until` that parses to be naive. Occupy accepts a `until` with a UTC offset, and comparing it with the naive clock raises TypeError on every later load; `AwareUntilBlocksSweep` shows that such a state is reachable, and `LoadParkingState` reports it as `Malformed`.
- Parking.Sweep: the order of the notifications is not fixed. The sweep visits spots in dict order, which the model does not track; it proves each due notice is sent exactly once.
- GuestLookup.FindGuestByPhone: the guests list is a parameter rather than loaded. When two or more candidates remain and one of their `created_at` values is truthy but not a string, `requires` excludes the list. Python raises TypeError there, unless every candidate's `created_at` is a non-zero number (or `true`), or every one is a non-empty list; those compare among themselves, and the model does not order them.
- Sidebar.SidebarItems: the info items are a parameter rather than loaded. When two or more items are visible on the page, `requires` excludes the list if one of their `order` values is not a number (an integer or a boolean). Python raises TypeError there, unless every visible item has an `order` and all of them are strings, or all are lists (each kind compares with itself); the model does not order strings or lists. Hidden items and a single visible item may carry any `order`.
- DocumentStore.Store.SaveGuests: mutates the caller's dict in place in Python. Here the normalised document is returned as `data'`.
- DocumentStore.FailedSaveKeepsLoad: covers a failed copy only when it failed before opening the backup. A `copy2` that fails after truncating the backup can leave an unreadable backup under a broken primary, and then the next load returns the default (`FailedSaveOverBrokenPrimary`).
- DocumentStore.Store.SaveJson: a write that raises is modelled as leaving an unparsable temporary file.
- `save_uploaded_file`, `download_image_from_url`, `hash_pin`/`check_pin` (hashing) and every route not named above are not part of this model.
