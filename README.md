# Extension blocklist, modelled in Dafny

The server keeps one document. Its `fixedExtensions` list holds seven well-known
dangerous file identifiers (`bat`, `cmd`, `com`, `cpl`, `exe`, `scr`, `js`),
each with a `blocked` flag of 0 or 1. Its `customExtensions` list holds
identifiers that users added, each with the time it was added. The REST
handlers work on that document:

- toggle one fixed entry's flag;
- add a custom identifier, after normalising it and running a fixed series of
  checks;
- delete a custom identifier;
- list the fixed entries ordered by identifier;
- list the custom entries newest first;
- show the blocked view: the blocked fixed identifiers, the custom
  identifiers, and the two lists concatenated.

The model has these modules:

- `Normalization` (normalize.dfy): the identifier normalisation, which
  lower-cases, then trims, then strips every leading `.`.
- `StringOrder` (string_order.dfy): the order the fixed listing uses.
- `Sorting` (sorting.dfy): a stable sort standing in for `Array.prototype.sort`
  with a comparator.
- `Search` (search.dfy): `findIndex`.
- `Json` (json.dfy): request-body values and JavaScript truthiness.
- `Blocklist` (blocklist.dfy): the document, its seed, the add checks and the
  invariant every handler keeps.
- `FixedOrder` (fixed_order.dfy): the listing order of the seven fixed
  identifiers, worked out step by step.
- `Server` (server.dfy): the class `Store`, whose fields are the two lists and
  whose methods are the handlers.

Each mutating handler (toggle, add, delete) reads the whole document, changes
it in memory and, on success, writes it back. Apart from `readData` writing
the seeded document over a missing or unparsable file (backend/server.js:30-33,
37-41), the three GET handlers only read the document, and an error is
answered without writing it. In the model the `Store` object is the stored
document, and the mutating handlers (toggle, add, delete) change its fields in place. The two
list handlers sort the copy that their own request read and never write it
back, so `ListFixed` and `ListCustom` return a sorted sequence and leave the
store unchanged.

The invariant `Consistent` states what the handlers maintain:

- the fixed identifiers are the seven seeded ones, in seeded order;
- there are at most 200 custom entries;
- no two custom entries share an identifier;
- every custom identifier is normalised, 1 to 20 characters long and not a
  fixed identifier.

With 200 custom entries stored, the missing-input, invalid and
fixed-collision checks still run before the capacity check
(backend/server.js:85-103): an empty input gets "required" and `"EXE"` gets
"already in fixed", not the capacity error. `Blocklist.CheckAdd` and
`Blocklist.CheckNormalised` state this precedence.

## Model

| member | source | states |
|---|---|---|
| Blocklist.InitData | backend/server.js:21-27 | the seeded document has exactly the identifiers bat, cmd, com, cpl, exe, scr, js in that order, none blocked, no custom entries, and satisfies the invariant |
| Blocklist.BlockedIdsNone | backend/server.js:24 | when every flag is 0, the blocked view of the fixed list is empty |
| Blocklist.Loaded | backend/server.js:29-43 | a missing or unreadable store reads as the seeded document (which is consistent); a readable one as itself |
| Server.Store.Load | backend/server.js:29-43 | the store starts as the document read; from a missing file it is consistent, nothing is blocked and there are no custom entries |
| Json.Truthy | backend/server.js:72 | JavaScript's ToBoolean on a parsed body value: `undefined`, `null`, `false`, `0` and `""` are false, every other value (arrays and objects included) is true; used for `blocked ? 1 : 0` and for `!extension` at line 85 |
| Normalization.LowerChar | backend/server.js:89 | `toLowerCase` on one character: upper-case ASCII letters become the matching lower-case letter, every other character is kept |
| Normalization.Lower | backend/server.js:89 | `toLowerCase` keeps the length, maps each character by `LowerChar` and leaves no upper-case letter |
| Normalization.TrimStart | backend/server.js:89 | the white space `trim` removes at the start: the result is a suffix of the input, everything dropped is white space and the result does not start with white space |
| Normalization.TrimEnd | backend/server.js:89 | the white space `trim` removes at the end: the result is a prefix of the input, everything dropped is white space and the result does not end in white space |
| Normalization.Trim | backend/server.js:89 | `trim` leaves no white space at either end; the result is empty exactly when the input is all white space; an already trimmed string is kept |
| Normalization.TrimCutsEnds | backend/server.js:89 | what `trim` removes is white space at the two ends only: the result is a contiguous middle part of the input |
| Normalization.TrimStartPadding | backend/server.js:89 | white space put in front of a string that does not start with white space is exactly what the start trim removes |
| Normalization.TrimEndPadding | backend/server.js:89 | white space put behind a string that does not end in white space is exactly what the end trim removes |
| Normalization.StripLeadingDots | backend/server.js:89 | `replace(/^\.+/, '')` removes a prefix made only of dots, and the rest does not start with a dot |
| Normalization.StripOneDot | backend/server.js:89 | one dot in front of a string that does not start with a dot is removed, and nothing else is |
| Normalization.Normalize | backend/server.js:89 | the normalised identifier is no longer than the input, has no upper-case letter, does not start with `.` and does not end in white space |
| Normalization.NormalizedShape | backend/server.js:89 | lower-casing, then trimming, then stripping dots gives that shape |
| Normalization.TrimKeepsNoUpper | backend/server.js:89 | trimming a string with no upper-case letter leaves none |
| Normalization.SuffixKeepsNoUpper | backend/server.js:89 | a suffix of a string with no upper-case letter has none, so stripping dots keeps the lower case |
| Normalization.NormalizeOnto | backend/server.js:89 | every string of that shape is the normal form of something, namely of itself with a `.` in front, so the shape is exactly the image of normalisation |
| Normalization.DotPrefixShape | backend/server.js:89 | a `.` in front of a string in normal form adds no upper-case letter and no white space at either end |
| Normalization.NormalizeTrimmedLowerCase | backend/server.js:89 | on a trimmed string with no upper-case letter, normalisation only strips the leading dots |
| Normalization.LowerKeepsLowerCase | backend/server.js:89 | lower-casing leaves a string with no upper-case letter unchanged |
| Normalization.NormalizeFixesUnpadded | backend/server.js:89 | a normalised string that does not start with white space is its own normal form |
| Normalization.NormalizeIgnoresPadding | backend/server.js:89 | white space on either side of a non-empty normal form that does not start with white space is ignored: the padded string normalises to the normal form |
| Normalization.NormalizeDotAndCase | backend/server.js:89 | `".SH"` normalises to `"sh"` |
| Normalization.NormalizeKeepsNormal | backend/server.js:89 | `"sh"` normalises to `"sh"` |
| Normalization.NormalizeSpaces | backend/server.js:89 | `"  sh "` normalises to `"sh"` |
| Normalization.NormalizeUpper | backend/server.js:89 | `"EXE"` normalises to `"exe"` |
| Normalization.NormalizeLeadingSpace | backend/server.js:89 | `" sh"` normalises to `"sh"` |
| Normalization.NormalizeNotIdempotent | backend/server.js:89 | normalisation is not idempotent: `". sh"` gives `" sh"`, and normalising that again gives `"sh"` |
| Blocklist.CheckAdd | backend/server.js:83-89 | a falsy input (missing, empty, null, false, 0) is refused as Required, and nothing else is; any other input is decided by the later checks on its normal form alone |
| Blocklist.CheckNormalised | backend/server.js:91-107 | the checks after normalisation, in source order, each error exactly when every earlier check passed: a normal form that is empty or over 20 characters gives Invalid; a fixed identifier gives InFixed; 200 or more entries gives Full; an existing custom identifier gives Duplicate; otherwise the normal form is accepted; never Required or NotFound |
| Blocklist.StatusCode | backend/server.js:68-69 | NotFound answers 404 and every other failure answers 400 (lines 85-107 and 122-123 likewise) |
| Blocklist.CheckAddAccepts | backend/server.js:91-107 | on a consistent document, an accepted identifier is storable, not yet present, and there is room for it; with 200 or more entries nothing is accepted |
| Blocklist.AddFixedCollision | backend/server.js:97-99 | any non-empty spelling whose normal form is a fixed identifier (`"EXE"`, `".exe"`) is refused as InFixed, whatever the custom list holds |
| Blocklist.AddAcceptsNew | backend/server.js:89-114 | on a consistent document with room, an input whose normal form is storable and new is accepted as that normal form |
| Blocklist.AddSeesOnlyNormalForm | backend/server.js:89-107 | two non-empty inputs with the same normal form get the same answer |
| Blocklist.AppendConsistent | backend/server.js:109-112 | appending a storable, new identifier to a list with room keeps the invariant |
| Blocklist.AddKeepsConsistent | backend/server.js:91-112 | appending what the add checks accept keeps the invariant |
| Server.Store.AddCustom | backend/server.js:82-115 | the result is the check outcome on the document before the call; a failure changes nothing; a success appends exactly one entry with the normal form and the given time, and leaves the fixed list and the earlier custom entries as they were; the invariant is preserved |
| Search.FindIndex | backend/server.js:66 | `find`/`findIndex`: -1 exactly when no element matches, otherwise the first matching index (line 120 likewise) |
| Blocklist.FixedIndex | backend/server.js:66-70 | -1 exactly when no fixed entry has this exact identifier, otherwise the first index that has it, as `find` returns the first match |
| Blocklist.FixedPositions | backend/server.js:66 | in the seeded order the lookup finds "exe" at the fifth entry and does not find "EXE" |
| Blocklist.FlagOf | backend/server.js:72 | `blocked ? 1 : 0`: the stored flag is 1 exactly when the body value is truthy |
| Blocklist.SetFlagConsistent | backend/server.js:72 | setting one entry's flag keeps the fixed identifiers, in order, and with them the invariant |
| Server.Store.ToggleFixed | backend/server.js:62-75 | an identifier that is absent (compared as given) gives NotFound and changes nothing; otherwise only that entry's flag changes, to the truthiness of the body value; the fixed identifiers and the custom list are unchanged; the invariant is preserved; setting a flag to the value it already has changes nothing |
| Server.ToggleTwiceSession | backend/server.js:62-75 | on a store holding the seven fixed identifiers, toggling "exe" to true blocks it, and toggling it true again changes nothing |
| Server.ToggleCaseSession | backend/server.js:62-70 | on a store holding the seven fixed identifiers, toggling "EXE" is NotFound and changes nothing |
| Blocklist.CustomIndex | backend/server.js:120-124 | -1 exactly when no custom entry has this exact identifier, otherwise the first index that has it |
| Blocklist.RemoveConsistent | backend/server.js:126 | removing the entry at one index keeps the invariant and leaves no entry with that identifier |
| Server.Store.DeleteCustom | backend/server.js:117-129 | an identifier that is absent (compared as given, not normalised) gives NotFound and changes nothing; otherwise exactly the first matching entry is removed and the rest keep their order; the fixed list is unchanged; the invariant is preserved and the identifier is then gone |
| Blocklist.BlockedIds | backend/server.js:133 | an identifier is in the blocked fixed view exactly when some fixed entry with flag 1 carries it |
| Blocklist.BlockedIdsAppend | backend/server.js:133 | the filter keeps stored order: the blocked identifiers of a concatenation are the concatenation of the blocked identifiers |
| Blocklist.BlockedIdsUnique | backend/server.js:133 | with distinct fixed identifiers, the blocked ones are distinct |
| Blocklist.CustomIds | backend/server.js:134 | `customExtensions.map(e => e.extension)`: the custom identifiers, one per entry, in stored order |
| Server.Store.ListBlocked | backend/server.js:131-136 | `fixed` is the blocked fixed identifiers in stored order, `custom` every custom identifier in stored order, `all` their concatenation, not re-sorted; membership in `all` is characterised; on a consistent store no identifier appears twice in `all` |
| Server.BlockedSession | backend/server.js:117-136 | with only "exe" blocked and custom entries "sh" then "py", the view is ["exe", "sh", "py"], deleting "SH" is NotFound and deleting "sh" leaves only "py" |
| StringOrder.LexLe | backend/server.js:59 | the order standing in for `localeCompare`: strings compared character by character, a proper prefix before any longer string |
| Sorting.Insert | backend/server.js:59 | one step of the stable sort: the element goes in front of the first element it may precede (line 79 likewise) |
| Sorting.Sort | backend/server.js:59 | `Array.prototype.sort` with a comparator, as insertion sort: each element is inserted ahead of the sorted rest (line 79 likewise) |
| StringOrder.LexLeTotal | backend/server.js:59 | the identifier order relates every two strings |
| StringOrder.LexLeTransitive | backend/server.js:59 | the identifier order is transitive |
| StringOrder.LexLeAntisymmetric | backend/server.js:59 | two strings ordered both ways are equal |
| Blocklist.ByIdentifier | backend/server.js:59 | the comparator `a.extension.localeCompare(b.extension)`, read as `cmp(a, b) <= 0`: `a` may precede `b` exactly when its identifier is `LexLe` that of `b` |
| Blocklist.NewestFirst | backend/server.js:79 | the comparator `new Date(b.created_at) - new Date(a.created_at)`, read as `cmp(a, b) <= 0`, that is `a.createdAt >= b.createdAt`: a newer entry may precede an older one |
| Blocklist.ByIdentifierIsTotalPreorder | backend/server.js:59 | the fixed listing comparator is a total preorder |
| Blocklist.NewestFirstIsTotalPreorder | backend/server.js:79 | the custom listing comparator is a total preorder |
| Sorting.InsertPermutes | backend/server.js:59 | inserting adds exactly the one element (as a multiset) |
| Sorting.SortPermutes | backend/server.js:59 | the sorted result is a permutation of the input (line 79 likewise) |
| Sorting.InsertSorted | backend/server.js:59 | inserting into a sorted sequence keeps it sorted |
| Sorting.SortSorted | backend/server.js:59 | the sorted result is ordered by the comparator (line 79 likewise) |
| Sorting.InsertStable | backend/server.js:59 | inserting puts the new element ahead of the elements it ties with and keeps their order |
| Sorting.SortStable | backend/server.js:59 | elements that compare equal keep their relative order, as `Array.prototype.sort` guarantees (line 79 likewise) |
| Server.Store.ListFixed | backend/server.js:57-60 | the fixed listing is a permutation of the stored entries, ascending by identifier, stable on ties, and leaves the store unchanged; on a consistent store its identifiers are exactly bat, cmd, com, cpl, exe, js, scr |
| Blocklist.InsertByIdentifier | backend/server.js:59 | inserting an entry by identifier inserts its identifier into the identifiers |
| Blocklist.SortByIdentifier | backend/server.js:59 | the identifiers of the sorted entries are the sorted identifiers |
| FixedOrder.SortStep | backend/server.js:59 | an element that precedes the head of an already sorted rest ends up in front of it |
| FixedOrder.SortLastTwo | backend/server.js:22 | sorting ["scr", "js"] gives ["js", "scr"] |
| FixedOrder.SevenIdentifiersSorted | backend/server.js:22 | the seven seeded identifiers, sorted, are bat, cmd, com, cpl, exe, js, scr |
| Blocklist.FixedIdentifiersSorted | backend/server.js:22 | the seeded identifier list, sorted, is the listing order bat, cmd, com, cpl, exe, js, scr |
| Server.Store.ListCustom | backend/server.js:77-80 | the custom listing is a permutation of the stored entries, newest first, entries with equal times in stored order, and leaves the store unchanged |

## Left out

- HTTP routing, the CORS and JSON middleware, `app.listen` and `/health`
  (backend/server.js:10-17, 53-55, 138-140) are framework plumbing. Each
  handler is one method, and an error is a value whose HTTP status
  `StatusCode` gives. The message texts are not modelled.
- File I/O in `readData`/`writeData` and the start-up existence check
  (backend/server.js:29-51) are not modelled. The file's state is the
  `Option<Document>` passed to `Store.Load`: `None` means a missing or
  unparsable file, which reads as the seeded document. A file that parses as
  JSON but has a different shape is not modelled.
- Concurrent requests are not modelled. They can race and the last write wins.
- `localeCompare` is modelled as code-point lexicographic order. The two can
  differ on strings with upper-case letters, digits or punctuation. Only the
  fixed list is sorted by identifier, and it holds the seven fixed
  identifiers, which are lower-case ASCII letters only, so
  `Server.Store.ListFixed`'s concrete order holds under both.
- `created_at` is an ISO date string compared through `new Date(...)`. The
  model uses an integer timestamp passed in by the caller (`now`), so the
  clock is a parameter. A hand-edited, unparsable date, which would compare as
  `NaN`, is not modelled.
- Normalization.Lower: models ASCII lower-casing only. JavaScript's
  `toLowerCase` also maps non-ASCII letters, and a few of them change the
  length. Trimming uses the ECMAScript white-space and line-terminator set in
  full.
- Normalization.Normalize: lengths are counted in characters. JavaScript
  counts UTF-16 code units, so the 20-character limit differs for characters
  outside the Basic Multilingual Plane.
- Server.Store.AddCustom: requires the body's `extension` to be a string or
  falsy. A truthy non-string value makes `toLowerCase` throw in JavaScript,
  which yields a framework error response. Blocklist.CheckAdd has the same
  requirement.
- The fixed-entry flag is modelled as 0 or 1, which is all the handlers ever
  write. A hand-edited file with another value is not modelled.
- The frontend (frontend/src) is not part of this model. It is a user
  interface, and its client-side check repeats the server normalisation.
