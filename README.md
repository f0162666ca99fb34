# Diary page: store and view synchronisation

A model of the diary page script `tma03.js`. The page keeps diary entries in the
browser's local storage. Each entry is stored under a key `"diary" + timestamp` as the
serialized item `{type, data}`: the type is "text" or "image", and the data is the
entry's text or the image's data URL.

On load, `initialize` checks that local storage exists, connects the buttons and runs
`showEntries`. That pass collects the keys with the "diary" prefix, sorts them,
decodes each record and renders a text entry or an image entry for it. The user can
then:

- add a text entry;
- type into a text entry; a `change` event saves it;
- add a photo, which is stored at once. Choosing the file fires a `change` event on
  the file input (tma03.js:281), and that event bubbles to the window. So every
  registered `saveEntry` runs before the file is read, which is `ChangeEvent` followed
  by `AddImage`. That also writes back the key of any deleted text entry;
- delete an entry, which removes its section from the page and its key from storage.

The model has four modules:

- `Codec` (codec.dfy) is `makeDiaryItem` and the decoding step of the load pass.
  - The text layer is the text `JSON.stringify` writes for the object `makeDiaryItem`
    builds: `{"type":"…","data":"…"}`. Each string body is escaped as section
    25.5.2.3 (QuoteJSONString) of ECMA-262 says:
    - `"` and `\` get a backslash;
    - backspace, tab, line feed, form feed and carriage return become `\b \t \n \f \r`;
    - the other characters below U+0020 become `\u00XX` with lower-case hex digits.
  - `ParseItem` returns `None` where `JSON.parse` would throw. That includes a raw
    control character inside a string.
  - The round trip and the injectivity of the encoding are proved.
- `Keys` (keys.dfy) covers the storage keys:
  - the prefix test `key.slice(0, 5) == "diary"`;
  - keys built from a timestamp;
  - the default string order that `diaryKeys.sort()` uses, proved to be a strict
    total order;
  - a sort whose result is the only strictly ascending permutation of its input.
  - It also proves that key order is creation order when the two timestamps have the
    same number of digits, and gives a pair with different digit counts where it is
    not.
- `Load` (load.dfy) is the load pass as pure functions over the store and the order
  in which the browser enumerates its keys, with the properties of what it renders.
- `Diary` (diary.dfy) is the page as a class.
  - `store` is local storage, `page` the entry sections in order, and `areas` every
    textarea created so far with the key its `saveEntry` writes to.
  - Every event handler is a method that changes these fields, proved against the
    functions of `Load` and against `SaveAll`, which specifies one `change` event.

Three behaviours of the code are kept as written:

- **The change listener is global.** `addTextEntry` registers `saveEntry` on the
  window (tma03.js:121), not on the textarea. Every `change` event therefore runs the
  save of every textarea ever created, in creation order, including textareas whose
  entry was deleted. A deleted text entry's key is written back into storage by the
  next change anywhere on the page (`DeletedTextEntryIsSavedAgain`, and the scenario
  `DeleteThenChange`). A listener on the textarea would save only its own entry; this
  one is on the window.
- **A refused write is not handled.** `localStorage.setItem` (tma03.js:117 and 186)
  throws when the quota is exceeded, and nothing catches it. `SaveEntry`, `ChangeEvent`
  and `AddImage` take whether storage accepts each write as a parameter.
  - A refused write leaves storage unchanged.
  - An image whose write is refused stays on the page but is not stored.
  - A `change` event still runs the later listeners after one of them throws.
- **A malformed record aborts the load pass.** `JSON.parse` at tma03.js:240 has no
  `try`, so a record that does not decode ends `showEntries`. Entries rendered before
  it stay on the page, and no later key is rendered (`LoadAbortsAtFirstMalformed`).
  A `try` around the parse would let the load skip a bad record and go on; there is
  none.
  - A record that decodes to an unknown type is logged and skipped, and the pass
    continues.

## Model

| member | source | states |
|---|---|---|
| Codec.MakeDiaryItem | tma03.js:12-15 | makeDiaryItem as JSON.stringify of {type, data}; specified by ParseMakeDiaryItem, MakeDiaryItemInjective and LineBreakStoredEscaped below |
| Codec.ParseMakeDiaryItem | tma03.js:12-15 | decoding what makeDiaryItem wrote gives back the same type and data (round trip) |
| Codec.MakeDiaryItemInjective | tma03.js:12-15 | two items serialize to the same text if and only if they have the same type and the same data |
| Codec.ParseItem | tma03.js:240 | when a record decodes, the record is exactly the serialization of the decoded item; otherwise the result is None (the parse throws) |
| Codec.ParseString | tma03.js:240 | an accepted string body is exactly the escaped form of the returned string, followed by a closing quote and the returned rest |
| Codec.ParseEscaped | tma03.js:240 | a string body escaped as JSON.stringify escapes it parses back to the same string and the same rest |
| Codec.ReadEscapeChar | tma03.js:240 | every escape sequence JSON.stringify writes (quote, backslash, short escapes, \u00XX) reads back as its character |
| Codec.RawControlCharacterRefused | tma03.js:240 | a raw character below U+0020 inside a string makes the parse fail, as JSON.parse throws on it |
| Codec.EscapePlain | tma03.js:14 | text without quotes, backslashes and control characters is written unchanged |
| Codec.EscapeAppend | tma03.js:14 | escaping works character by character: the escape of a concatenation is the concatenation of the escapes |
| Codec.EscapeLineBreak | tma03.js:14 | a line break between two plain texts is written as the two characters \n |
| Codec.LineBreakStoredEscaped | tma03.js:115 | a two-line text entry is stored with its line break escaped as \n, never as a raw line feed |
| Keys.SliceFromStart | tma03.js:224 | key.slice(0, n) has length min(n, length) and is a prefix of the key |
| Keys.IsDiaryKey | tma03.js:224 | the slice test holds exactly when the key starts with "diary"; shorter keys never pass |
| Keys.DiaryKey | tma03.js:145 | a key built from a timestamp passes the prefix test and is longer than the prefix |
| Keys.ValueOfDecimal | tma03.js:145 | the decimal digits appended to the prefix read back as the timestamp |
| Keys.DiaryKeyInjective | tma03.js:145 | two timestamps give the same key if and only if they are equal |
| Keys.LexLess | tma03.js:233 | the default string order of sort; a proper prefix comes first; LexStrictTotalOrder and KeyOrderIsCreationOrder below specify it |
| Keys.LexStrictTotalOrder | tma03.js:233 | the default string order of sort is irreflexive, transitive and total |
| Keys.KeyOrderIsCreationOrder | tma03.js:230-233 | for timestamps with the same number of digits, key order is timestamp order (both directions) |
| Keys.UnequalLengthKeysMisorder | tma03.js:230-233 | a later timestamp with more digits can sort first: "diary100" comes before "diary20" |
| Keys.Insert | tma03.js:233 | inserting a new key into an ascending list keeps it strictly ascending and adds exactly that key |
| Keys.Sort | tma03.js:233 | diaryKeys.sort() on distinct keys gives a strictly ascending permutation of them |
| Keys.SortedUnique | tma03.js:233 | two strictly ascending permutations of the same keys are equal, so any correct sort gives Sort's result |
| Load.DiaryKeysOf | tma03.js:216-228 | the first loop keeps exactly the enumerated keys that pass the prefix test, without repetitions |
| Load.SortedDiaryKeys | tma03.js:216-233 | the visited keys are strictly ascending and are exactly the stored keys with the "diary" prefix |
| Load.Dispatch | tma03.js:242-251 | at most one entry, under the record's key; an entry exactly when the type is "text" or "image" |
| Load.LoadKeys | tma03.js:236-252 | no more entries than visited keys (each key at most once, by LoadKeepsOrder); specified by LoadCompletesIff, LoadShowsOnlyDecoded, LoadShowsEveryItem, LoadKeepsOrder, LoadStopped and LoadNextKey below |
| Load.LoadPass | tma03.js:212-253 | only keys in storage with the "diary" prefix are rendered; specified further by LoadPassRendersDiaryKeys and LoadPassIgnoresEnumerationOrder below |
| Load.LoadCompletesIff | tma03.js:236-252 | the load pass runs to the end if and only if every visited record decodes |
| Load.LoadShowsOnlyDecoded | tma03.js:236-252 | every rendered entry is a visited key whose record decodes to an item of that type and that data |
| Load.LoadShowsEveryItem | tma03.js:236-252 | when the pass completes, every visited text item and every visited image item is rendered |
| Load.LoadKeepsOrder | tma03.js:236-247 | rendered keys are visited keys, and for ascending keys they appear in ascending order, each once |
| Load.LoadStopped | tma03.js:240 | once the pass has stopped, later keys change nothing |
| Load.LoadNextKey | tma03.js:236-252 | one more key renders its dispatched item when its record decodes, or ends the whole pass with what was rendered so far |
| Load.LoadAbortsAtFirstMalformed | tma03.js:240 | the first record that does not decode ends the pass: everything before it stays rendered, nothing after it is rendered |
| Load.LoadPassIgnoresEnumerationOrder | tma03.js:219-233 | the pass renders the same whatever order the browser enumerates the keys in |
| Load.LoadPassRendersDiaryKeys | tma03.js:212-253 | over a whole store: only "diary" keys are rendered, ascending and each once; the pass completes if and only if every such record decodes, and then every text and image item is shown |
| Diary.SaveAll | tma03.js:99-121 | one change event over every registered saveEntry, each write taken or refused; no key is ever removed; specified by the lemmas below |
| Diary.SaveAllKeys | tma03.js:99-121 | a change event adds to storage exactly the keys of the listeners whose write storage took |
| Diary.SaveAllKeepsOtherKeys | tma03.js:99-121 | every key no accepted write touched keeps its value |
| Diary.SaveAllLastWrite | tma03.js:99-121 | after a change event, a key holds the text item of the last textarea whose write to it was accepted |
| Diary.SaveAllLastWins | tma03.js:99-121 | after a change event, that key decodes to the value of the last textarea whose write to it was accepted |
| Diary.DeletedTextEntryIsSavedAgain | tma03.js:53 | the listener of a deleted text entry stays registered, so the next change event writes the deleted key back |
| Diary.Diary.constructor | tma03.js:290 | a page load starts over the persisted storage, with no entries, no textareas and nothing connected |
| Diary.Diary.AddSection | tma03.js:22-71 | the new section goes after the existing entries, and the page shows what it showed plus the new entry |
| Diary.Diary.DeleteEntry | tma03.js:38-54 | the i-th section leaves the page, its key leaves storage, and nothing else is shown differently |
| Diary.Diary.AddTextEntry | tma03.js:79-122 | a new textarea holding the initial text is registered and shown last; storage is not written |
| Diary.Diary.AddImageEntry | tma03.js:129-138 | an image with the data URL is shown last |
| Diary.Diary.AddEntryClick | tma03.js:143-149 | an empty text entry under "diary" + timestamp is shown last; storage is not written until a change event |
| Diary.Diary.EditText | tma03.js:113 | typing into the i-th entry changes its textarea's value and what that entry shows, and nothing else |
| Diary.Diary.SaveEntry | tma03.js:99-118 | when storage takes the write, the textarea's value is stored as a text item under its key and decodes back to that value, and no other key changes; a refused write changes nothing |
| Diary.Diary.ChangeEvent | tma03.js:121 | every registered saveEntry runs in registration order, each write taken or refused: storage becomes SaveAll of the old storage |
| Diary.Diary.AddImage | tma03.js:171-187 | an image entry is shown last; when storage takes the write, the image item is stored under "diary" + timestamp and decodes back to the data URL, and otherwise storage is unchanged |
| Diary.Diary.RenderItem | tma03.js:242-251 | a text item adds a text entry, an image item an image entry, and any other type adds nothing |
| Diary.CollectDiaryKeys | tma03.js:216-228 | the first loop of showEntries collects exactly DiaryKeysOf the enumeration |
| Diary.Diary.RenderKeys | tma03.js:236-252 | the second loop renders exactly what LoadKeys renders over the sorted keys and reports whether it reached the end |
| Diary.Diary.ShowEntries | tma03.js:212-253 | the page shows what it showed plus exactly what the load pass renders; the result says whether the pass ran to the end |
| Diary.Diary.Initialize | tma03.js:258-287 | without local storage only the error state is set; otherwise the controls are connected and the page shows exactly the load pass over storage |
| Diary.SingleDiaryKey | tma03.js:219-233 | a store with a single "diary" key visits just that key |
| Diary.LoadSavedTextEntry | tma03.js:212-253 | storage holding one saved text entry loads as exactly that entry, and the pass completes |
| Diary.EmptyStoreLoadsNothing | tma03.js:212-253 | the load pass over empty storage renders nothing and completes |
| Diary.FirstVisit | tma03.js:258-287 | a first visit over empty storage starts with the page connected and nothing shown |
| Diary.WriteOneEntry | tma03.js:143-149 | on a first visit, adding an entry, typing and a change event leave one entry, one textarea and one stored text item under the new key |

## Left out

- Codec.ParseItem: it accepts exactly the text that JSON.stringify writes for an object with string `type` and `data` fields, in that order. Other valid JSON counts as malformed here, though `JSON.parse` would accept it: extra whitespace, other field orders, `\/`, upper-case hex digits, `\u` escapes other than the ones JSON.stringify writes, non-string fields, or `null` (on which `item.type` throws, which is also an abort).
- Codec.MakeDiaryItem: lone surrogates, which JSON.stringify writes as `\udXXX`, are not modelled: a Dafny `char` is a Unicode scalar value and cannot be one.
- Diary.Diary.AddImage: a failed or aborted read is not represented. The callback is `reader.onloadend` (tma03.js:199-201), which also fires after such a read, with `reader.result` null. `addImage(null)` then shows an image whose src is "null" and stores `{"type":"image","data":null}` (tma03.js:177-186). The model's `dataUrl` is always a string. On the next load the page parses that record and renders it as an image (tma03.js:240, 245-247), but the model's `ParseItem` refuses a non-string `data`, so the model's pass aborts at it.
- The DOM is not modelled: section and button elements, the class name "entry", textarea rows and placeholder, image alt text, and the `main` element. The page is a sequence of entries placed before the button sections.
- Moving focus to a new text entry (tma03.js:93-95) has no effect on state and is not modelled.
- `console.log` and `console.error` are not modelled.
- `addPhotoClick` (tma03.js:154-159) only clicks the hidden file input, so it is not modelled.
- The rest of `processFile` (tma03.js:194-206) is not modelled: the asynchronous FileReader read, which takes the event target's first file, and the reset of the input. `AddImage` takes the result of a successful read, a data URL, as a parameter.
- `Date.now()` becomes the parameter `now`. Nothing is assumed about two entries getting different timestamps; two entries made in the same millisecond share a key.
- The order in which `localStorage.key(index)` enumerates keys is a parameter of `ShowEntries`, constrained only to list each stored key once.
- Keys.Sort: `diaryKeys.sort()` is the browser's in-place sort. It is modelled as a function on sequences, and `SortedUnique` shows that every sort gives the same result on distinct keys.
- Keys.LexLess: it compares characters as Dafny `char` values. The browser compares UTF-16 code units, and the two orders differ only for characters outside the Basic Multilingual Plane.
- Pressing a delete button twice is not modelled: the first click removes the section and its button, and a second click would throw on the missing parent node.
- The global `load` event registration (tma03.js:290) is not modelled. The constructor followed by `Initialize` stands for it.
- The availability check `!window.localStorage` becomes the boolean `available`. Replacing `main` with the error heading becomes the `unsupported` flag.
