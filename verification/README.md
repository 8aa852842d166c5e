# LiteDB collection page, modelled in Dafny

This project models the collection page of LiteDB's storage engine
(`LiteDB/DbEngine/Pages/CollectionPage.cs`). One page describes one
collection: its name, the head of its private free data-page list, its
document count and a fixed array of `INDEX_PER_COLLECTION` (16) index slots,
where slot 0 is the primary key. The model covers:

- construction of a fresh page and `UpdateItemCount`;
- the content serialiser and deserialiser (`WriteContent` / `ReadContent`),
  over an abstract stream of typed values. The document count travels twice:
  a 4-byte copy saturated at `uint.MaxValue` on write, and an 8-byte copy.
  The reader keeps the larger of the two;
- the slot queries `GetFreeIndex`, `GetIndex`, `PK` and `GetIndexes`;
- the collection-name pattern.

Files:

- `wrappers.dfy`: `Option` and `Result`, standing in for null returns and
  thrown exceptions.
- `binary.dfy`: the byte reader/writer as a token stream (`Str`, `U32`,
  `I64`, `Bool`, `Addr`), the .NET integer widths and `PageAddress`.
- `collection_index.dfy`: the index slot (`CollectionIndex`, `IndexOptions`,
  `IsEmpty` as `Field == ""`).
- `collection_page.dfy`: the page, its operations and their contracts.
- `collection_page_lemmas.dfy`: the round trip, when a read succeeds, the
  document-count rule and how the slot queries relate.
- `name_pattern.dfy`: the collection-name check.

A page is `WellFormed` when it has exactly 16 slots and slot `i` carries
slot number `i`. The constructor establishes this, and reading content
keeps it.

`GetFreeIndex` scans from slot 0 (CollectionPage.cs:132). Given that a
fresh slot is unused (see `CollectionIndexes.EmptySlot` under "## Left
out"), a fresh page hands out slot 0, the primary key's slot
(`CollectionPageLemmas.FreshPage`).

## Model

| member | source | states |
|---|---|---|
| CollectionPages.NewPage | LiteDB/DbEngine/Pages/CollectionPage.cs:46-59 | a fresh page keeps its page id and has free data page `uint.MaxValue`, document count 0, item count 1 and free bytes 0; it has exactly 16 slots, slot `i` is numbered `i`, and every slot is unused (taking a fresh slot to be unused, as `CollectionIndexes.EmptySlot` does) |
| CollectionIndexes.EmptySlot | LiteDB/DbEngine/Pages/CollectionPage.cs:57 | a slot created by the constructor carries its position as slot number; that it is unused is assumed of `new CollectionIndex()` (see "## Left out") |
| CollectionPageLemmas.FreshPage | LiteDB/DbEngine/Pages/CollectionPage.cs:46-68 | on a fresh page the first free slot is slot 0 and no index is in use; `UpdateItemCount` leaves a fresh page unchanged |
| CollectionPages.UpdateItemCount | LiteDB/DbEngine/Pages/CollectionPage.cs:64-68 | afterwards the item count is 1 and free bytes is 0, and every other field is unchanged |
| CollectionPageLemmas.UpdateItemCountIdempotent | LiteDB/DbEngine/Pages/CollectionPage.cs:64-68 | applying it twice is the same as applying it once |
| CollectionPages.LegacyCount | LiteDB/DbEngine/Pages/CollectionPage.cs:103-104 | the 4-byte count never exceeds the true count; it is either the true count or `uint.MaxValue`, so it equals the true count whenever that fits in a `uint` |
| CollectionPages.ResolveCount | LiteDB/DbEngine/Pages/CollectionPage.cs:92-93 | the count read back is at least the 4-byte copy and at least the 8-byte copy, and is one of them |
| CollectionPageLemmas.LegacyThenResolve | LiteDB/DbEngine/Pages/CollectionPage.cs:92-104 | saturating on write, then taking the maximum on read, gives back every count from 0 to 2^63-1 |
| CollectionPages.WriteSlot | LiteDB/DbEngine/Pages/CollectionPage.cs:108-116 | one slot is written as nine values: field, head, tail, free index page, then five option flags |
| CollectionPages.WriteSlots | LiteDB/DbEngine/Pages/CollectionPage.cs:106-117 | writing the slot array gives exactly nine values per slot, and they have a slot's kinds in every group of nine, whatever follows them |
| CollectionPages.WriteSlotsAt | LiteDB/DbEngine/Pages/CollectionPage.cs:106-117 | slot `i` occupies values `9i` to `9i+9`, so the slots go out in ascending array order |
| CollectionPages.WriteContent | LiteDB/DbEngine/Pages/CollectionPage.cs:97-121 | output order is: name, free data page, the 4-byte count, the slots, the 8-byte count; there are exactly `4 + 9n` values; slot `i` occupies values `3 + 9i` to `3 + 9i + 9` and is exactly the nine values written for slot `i`, so the slots go out in ascending array order; the 4-byte count is `min(count, uint.MaxValue)` and the last value is the full count |
| CollectionPages.ReadSlot | LiteDB/DbEngine/Pages/CollectionPage.cs:80-88 | reading a slot succeeds exactly when the next nine values have a slot's kinds; the slot keeps its number, and exactly nine values are consumed |
| CollectionPages.ReadSlots | LiteDB/DbEngine/Pages/CollectionPage.cs:78-89 | reading the slot array gives back one slot for each slot of the reading page; what those slots hold is stated by `ReadSlotsThenWrite`, `ReadSlotsKeepsNumbers` and `ReadSlotsConsumes` |
| CollectionPages.ReadSlotsKeepsNumbers | LiteDB/DbEngine/Pages/CollectionPage.cs:78-89 | reading the slot array overwrites slot contents in place; every slot keeps its slot number |
| CollectionPages.ReadSlotsConsumes | LiteDB/DbEngine/Pages/CollectionPage.cs:78-89 | reading `n` slots consumes exactly `9n` values |
| CollectionPages.ReadContent | LiteDB/DbEngine/Pages/CollectionPage.cs:72-95 | a successful read keeps the reading page's id, item count, free bytes and slot numbers |
| CollectionPageLemmas.ReadSlotsDefined | LiteDB/DbEngine/Pages/CollectionPage.cs:78-89 | reading the slot array succeeds exactly when the stream starts with `n` slots' worth of values |
| CollectionPageLemmas.ReadContentDefined | LiteDB/DbEngine/Pages/CollectionPage.cs:72-95 | reading succeeds exactly when the stream starts with values of the kinds the writer emits, in the writer's order; otherwise it fails |
| CollectionPageLemmas.ReadContentConsumes | LiteDB/DbEngine/Pages/CollectionPage.cs:72-95 | a successful read consumes exactly `4 + 9n` values and returns the rest of the stream |
| CollectionPageLemmas.ReadSlotRoundTrip | LiteDB/DbEngine/Pages/CollectionPage.cs:80-116 | reading one written slot into a slot of the same number gives back exactly that slot and leaves exactly the following values |
| CollectionPageLemmas.ReadSlotsRoundTrip | LiteDB/DbEngine/Pages/CollectionPage.cs:78-117 | reading back the written slot array restores every slot's field, head, tail, free index page and five options, and leaves exactly the following values |
| CollectionPageLemmas.ContentRoundTrip | LiteDB/DbEngine/Pages/CollectionPage.cs:72-121 | writing one well-formed page and reading it into another restores the name, free data page, every slot and the document count; the reader's header is kept and exactly the trailing stream is left |
| CollectionPageLemmas.ContentRoundTripSelf | LiteDB/DbEngine/Pages/CollectionPage.cs:72-121 | a well-formed page read back from its own content is unchanged |
| CollectionPageLemmas.ReadSlotThenWrite | LiteDB/DbEngine/Pages/CollectionPage.cs:80-116 | writing a slot just read gives back exactly the nine values it was read from |
| CollectionPageLemmas.ReadSlotsThenWrite | LiteDB/DbEngine/Pages/CollectionPage.cs:78-117 | writing a slot array just read gives back exactly the values it was read from |
| CollectionPageLemmas.ReadContentThenWrite | LiteDB/DbEngine/Pages/CollectionPage.cs:72-121 | on any stream a read succeeds on, even one whose two count copies disagree, writing back the page read gives back the name, the free data page and every slot value unchanged; only the two count positions may differ |
| CollectionPageLemmas.ReadCountIsMax | LiteDB/DbEngine/Pages/CollectionPage.cs:76-93 | the count read is the larger of the `U32` at position 2 and the `I64` that ends the content region |
| CollectionPageLemmas.LargeCountSurvives | LiteDB/DbEngine/Pages/CollectionPage.cs:99-120 | with 5,000,000,000 documents the 4-byte copy is written as `uint.MaxValue`, and reading back gives exactly 5,000,000,000 |
| CollectionPageLemmas.ReadContentKeepsWellFormed | LiteDB/DbEngine/Pages/CollectionPage.cs:78-89 | reading content into a well-formed page gives a well-formed page |
| CollectionPages.FirstEmpty | LiteDB/DbEngine/Pages/CollectionPage.cs:132-135 | the scan returns the lowest empty position at or after its start, or none exactly when no later slot is empty |
| CollectionPages.GetFreeIndex | LiteDB/DbEngine/Pages/CollectionPage.cs:130-138 | returns an empty slot that has no empty slot before it; on a well-formed page that slot sits at the position of its own number; it fails with `IndexLimitExceeded` carrying the collection name exactly when every slot is in use |
| CollectionPageLemmas.FreeIndexIsEmptyFieldLookup | LiteDB/DbEngine/Pages/CollectionPage.cs:130-146 | the free slot is exactly what looking up the empty field name returns, and one exists exactly when the other does |
| CollectionPageLemmas.FreeIndexFailsIffAllUsed | LiteDB/DbEngine/Pages/CollectionPage.cs:130-159 | no free slot exists exactly when the used-index list holds all 16 slots |
| CollectionPageLemmas.FreeIndexAfterTwo | LiteDB/DbEngine/Pages/CollectionPage.cs:130-138 | with `_id` in slot 0, `Age` in slot 1 and slot 2 unused, the free slot is slot 2 |
| CollectionPages.FindField | LiteDB/DbEngine/Pages/CollectionPage.cs:145 | gives the position of the first slot whose field equals the name, with no match before it, or none exactly when no slot matches |
| CollectionPages.GetIndex | LiteDB/DbEngine/Pages/CollectionPage.cs:143-146 | returns the first slot whose field is exactly the given name, or none exactly when no slot has that field |
| CollectionPageLemmas.GetIndexCaseSensitive | LiteDB/DbEngine/Pages/CollectionPage.cs:143-146 | on a well-formed page where slot 1 indexes `Age` and no other slot indexes `Age` or `age`, looking up `Age` returns slot 1 and looking up `age` returns nothing |
| CollectionPages.PK | LiteDB/DbEngine/Pages/CollectionPage.cs:151 | the primary key is the slot numbered 0, taken from the page's own slots |
| CollectionPages.GetIndexes | LiteDB/DbEngine/Pages/CollectionPage.cs:156-159 | a slot is listed exactly when it is one of the page's slots, is in use and, unless the primary key is requested, is numbered at least 1; on a well-formed page the list is in strictly ascending slot order |
| CollectionPages.UsedSlotsAscending | LiteDB/DbEngine/Pages/CollectionPage.cs:158 | filtering an array whose slot numbers ascend keeps them ascending |
| CollectionPages.UsedSlots | LiteDB/DbEngine/Pages/CollectionPage.cs:158 | a slot is kept exactly when it is in the array, is in use and is numbered at least the lower bound; the result is no longer than the array |
| CollectionPageLemmas.GetIndexesPrimaryKey | LiteDB/DbEngine/Pages/CollectionPage.cs:156-159 | the list holds slot 0 exactly when the primary key is requested and in use |
| CollectionPageLemmas.GetIndexesWithAndWithoutPK | LiteDB/DbEngine/Pages/CollectionPage.cs:156-159 | the full list is the list without the primary key, preceded by the primary key when it is in use |
| NamePattern.NamePatternMatches | LiteDB/DbEngine/Pages/CollectionPage.cs:18 | the pattern as .NET evaluates it: a match has at least one character, and a match not ending in a line feed is 1 to 30 word characters or hyphens |
| NamePattern.IsValidName | LiteDB/DbEngine/Pages/CollectionPage.cs:18 | a valid name holds no line feed and no space |
| NamePattern.PatternAcceptsTrailingLineFeed | LiteDB/DbEngine/Pages/CollectionPage.cs:18 | the pattern accepts `"orders\n"`, which is not a valid name |
| NamePattern.ValidNameIsPatternWithoutLineFeed | LiteDB/DbEngine/Pages/CollectionPage.cs:18 | a name is valid exactly when the pattern accepts it and it holds no line feed |
| NamePattern.NameExamples | LiteDB/DbEngine/Pages/CollectionPage.cs:18 | `orders-2024` and `Products` are valid names; `bad name!` and the empty name are not |

## Left out

- LiteDB/Platform/UWP/LitePlatformWindowsStore.cs: it is a platform adapter. It does lazy file-handler construction, waits through an async delay, throws from `GetEncryption`, and registers a reflection-based mapper type. All of that is I/O, async or foreign library code.
- The shared page header (id, type, prev/next links) and its read/write: `BasePage` is not part of this model. `pageID`, `itemCount` and `freeBytes` are plain fields that the content operations carry along.
- The byte-level encodings of `ByteReader`/`ByteWriter`: the string length prefix, endianness and `PageAddress` layout. Writing a value appends one typed token; reading consumes one.
- CollectionPages.ReadSlot: a real byte reader does not check what kind of value it reads. The token abstraction does: a read of the wrong kind fails with `Mismatch`. A value missing at the end fails with `EndOfStream`.
- CollectionPages.ReadContent: the engine mutates the page field by field, so a read that fails part-way leaves it partly overwritten. The model returns only the error, with no page.
- CollectionIndexes.EmptySlot: `CollectionIndex.cs` is not part of this model. The page constructor sets only the slot number (CollectionPage.cs:57). A fresh slot is assumed to be unused, and the other defaults (unset addresses, no free index page, all options off) are also stand-ins for `new CollectionIndex()`.
- `PageAddress.cs` is not part of this model. As a modelling choice, an address is a 32-bit page id plus an 8-bit slot number; nothing in the model depends on those widths.
- The slot's back-reference to its page (`Page = this`): the page owns its slots, so the reference is not modelled.
- `MAX_COLLECTIONS_SIZE`: the header page enforces it, not the collection page.
- CollectionPages.GetFreeIndex: the source counts slots with a `byte`. That counter would wrap on arrays of 256 or more slots, but the array always has 16, so the model uses an unbounded position.
- CollectionPages.Count: a negative document count is out of scope; the `(uint)` cast of one is not modelled. Counts range over 0 to 2^63-1. A count read back is never negative, because it is at least the unsigned 4-byte copy.
- NamePattern.IsValidName: word characters are ASCII letters, digits and `_`. .NET's `\w` also admits Unicode letters and digits, which the model rejects.
- NamePattern.NamePatternMatches: same ASCII restriction as `IsValidName`.
- `GetIndexes` returns a lazy enumerable in the source. The model returns the finite sequence it enumerates, recomputed on every call.
- The constructor does not set the collection name (it is `null` in .NET); the model uses the empty string.
- The token stream is unbounded, but a page's content region is a fixed-size buffer. The round trip holds in the model for collection names and field names of any length, although a real page cannot hold every such name; page capacity is not modelled.
- The 8-byte count is always read, even from files whose writer wrote only the 4-byte count; the model, like the code, assumes it is present.

## Findings

| source | as written | input that shows it | evidently intended | confidence | as-written member | corrected member |
|---|---|---|---|---|---|---|
| LiteDB/DbEngine/Pages/CollectionPage.cs:18 | `^[\w-]{1,30}$` without the multiline option lets `$` match just before a final line feed, so a name ending in `\n` passes | `"orders\n"` | a name is 1 to 30 word characters or hyphens and nothing else | medium, not executed | NamePattern.PatternAcceptsTrailingLineFeed | NamePattern.ValidNameIsPatternWithoutLineFeed |
