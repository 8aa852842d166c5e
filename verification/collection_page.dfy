/** The collection page: one page describes one collection (its name, the
    head of its free data-page list, its document count and a fixed array
    of index slots), and its content region is read and written in a fixed
    field order. */
module CollectionPages {
  import opened Wrappers
  import opened Binary
  import opened CollectionIndexes

  /** The failure the engine throws when every index slot is in use. */
  datatype LiteError = IndexLimitExceeded(collectionName: string)

  /** A document count: a non-negative `long`. */
  type Count = x: int | 0 <= x <= INT64_MAX

  /** The page. `pageID`, `itemCount` and `freeBytes` belong to the shared
      page header; the rest is this page type's content. */
  datatype CollectionPage = CollectionPage(
    pageID: uint32,
    collectionName: string,
    freeDataPageID: uint32,
    documentCount: Count,
    itemCount: int,
    freeBytes: int,
    indexes: seq<CollectionIndex>)

  /** The slot array has exactly INDEX_PER_COLLECTION slots, numbered by position. */
  predicate WellFormed(p: CollectionPage) {
    |p.indexes| == INDEX_PER_COLLECTION &&
    forall i :: 0 <= i < |p.indexes| ==> p.indexes[i].slot == i
  }

  // ---------------------------------------------------------------- construction

  /** A freshly constructed page. The name is not set by the constructor;
      it is modelled as the empty string. */
  function NewPage(pageID: uint32): (p: CollectionPage)
    ensures WellFormed(p)
    ensures p.pageID == pageID && p.freeDataPageID == UINT32_MAX && p.documentCount == 0
    ensures p.itemCount == 1 && p.freeBytes == 0
    ensures forall i :: 0 <= i < |p.indexes| ==> p.indexes[i].IsEmpty()
  {
    CollectionPage(pageID, "", UINT32_MAX, 0, 1, 0,
                   seq(INDEX_PER_COLLECTION, i requires 0 <= i => EmptySlot(i)))
  }

  /** Re-establishes the fixed header counts of a collection page. */
  function UpdateItemCount(p: CollectionPage): (r: CollectionPage)
    ensures r.itemCount == 1 && r.freeBytes == 0
    ensures r.(itemCount := p.itemCount, freeBytes := p.freeBytes) == p
  {
    p.(itemCount := 1, freeBytes := 0)
  }

  // ---------------------------------------------------------------- document count

  /** The 4-byte copy of the count: saturated at `uint.MaxValue`. */
  function LegacyCount(c: Count): (u: uint32)
    ensures u <= c
    ensures u == c || u == UINT32_MAX
  {
    if c > UINT32_MAX then UINT32_MAX else c
  }

  /** The count a reader settles on from the 4-byte and 8-byte copies. */
  function ResolveCount(legacy: uint32, extended: int64): (c: Count)
    ensures c >= legacy && c >= extended
    ensures c == legacy || c == extended
  {
    if legacy >= extended then legacy else extended
  }

  // ---------------------------------------------------------------- layout

  /** The stream starts with the values of one slot: field, head, tail,
      free index page, then the five options. */
  predicate SlotShaped(ts: seq<Token>) {
    |ts| >= 9 && ts[0].Str? && ts[1].Addr? && ts[2].Addr? && ts[3].U32? &&
    ts[4].Bool? && ts[5].Bool? && ts[6].Bool? && ts[7].Bool? && ts[8].Bool?
  }

  /** The stream starts with the values of `n` slots. */
  predicate SlotsShaped(ts: seq<Token>, n: nat)
    ensures SlotsShaped(ts, n) ==> |ts| >= 9 * n
  {
    n == 0 || (SlotShaped(ts) && SlotsShaped(ts[9..], n - 1))
  }

  /** Number of values in the content region of a page with `n` slots. */
  function ContentLength(n: nat): nat {
    3 + 9 * n + 1
  }

  /** The stream starts with the content region of a page with `n` slots:
      name, free data page, 4-byte count, the slots, 8-byte count. */
  predicate ContentShaped(ts: seq<Token>, n: nat) {
    |ts| >= ContentLength(n) && ts[0].Str? && ts[1].U32? && ts[2].U32? &&
    SlotsShaped(ts[3..], n) && ts[ContentLength(n) - 1].I64?
  }

  // ---------------------------------------------------------------- writing

  function WriteSlot(c: CollectionIndex): (ts: seq<Token>)
    ensures |ts| == 9 && SlotShaped(ts)
  {
    [Str(c.field), Addr(c.headNode), Addr(c.tailNode), U32(c.freeIndexPageID),
     Bool(c.options.unique), Bool(c.options.ignoreCase), Bool(c.options.trimWhitespace),
     Bool(c.options.emptyStringToNull), Bool(c.options.removeAccents)]
  }

  /** The slots, in ascending array order, followed by anything. */
  function WriteSlots(slots: seq<CollectionIndex>): (ts: seq<Token>)
    ensures |ts| == 9 * |slots|
    ensures forall rest :: SlotsShaped(ts + rest, |slots|)
  {
    if |slots| == 0 then []
    else
      var tail := WriteSlots(slots[1..]);
      var ts := WriteSlot(slots[0]) + tail;
      assert forall rest :: (ts + rest)[9..] == tail + rest;
      ts
  }

  /** Slot `i` is written at values `9 * i` to `9 * i + 9`: the slots go out
      in ascending array order. */
  lemma {:induction false} WriteSlotsAt(slots: seq<CollectionIndex>, i: nat)
    requires i < |slots|
    ensures WriteSlots(slots)[9 * i..9 * i + 9] == WriteSlot(slots[i])
    decreases i
  {
    var tail := WriteSlots(slots[1..]);
    assert WriteSlots(slots) == WriteSlot(slots[0]) + tail;
    if i > 0 {
      WriteSlotsAt(slots[1..], i - 1);
      assert WriteSlots(slots)[9 * i..9 * i + 9] == tail[9 * (i - 1)..9 * (i - 1) + 9];
    }
  }

  /** The content region of `p` as the writer emits it. */
  function WriteContent(p: CollectionPage): (ts: seq<Token>)
    ensures |ts| == ContentLength(|p.indexes|) && ContentShaped(ts, |p.indexes|)
    ensures ts[0] == Str(p.collectionName) && ts[1] == U32(p.freeDataPageID)
    ensures ts[2].U32? && ts[2].u <= p.documentCount
    ensures p.documentCount <= UINT32_MAX ==> ts[2].u == p.documentCount
    ensures p.documentCount > UINT32_MAX ==> ts[2].u == UINT32_MAX
    ensures ts[|ts| - 1] == I64(p.documentCount)
    ensures forall i :: 0 <= i < |p.indexes| ==> ts[3 + 9 * i..3 + 9 * i + 9] == WriteSlot(p.indexes[i])
  {
    var body := WriteSlots(p.indexes);
    var ts := [Str(p.collectionName), U32(p.freeDataPageID), U32(LegacyCount(p.documentCount))] +
              body + [I64(p.documentCount)];
    assert ts[3..] == body + [I64(p.documentCount)];
    forall i | 0 <= i < |p.indexes|
      ensures ts[3 + 9 * i..3 + 9 * i + 9] == WriteSlot(p.indexes[i])
    {
      WriteSlotsAt(p.indexes, i);
      assert ts[3 + 9 * i..3 + 9 * i + 9] == body[9 * i..9 * i + 9];
    }
    ts
  }

  // ---------------------------------------------------------------- reading

  /** Kinds of the values of one slot, in reading order; the error a failed
      slot read reports is the first value that departs from it. */
  const SLOT_KINDS: seq<Kind> :=
    [KString, KAddress, KAddress, KUInt32, KBool, KBool, KBool, KBool, KBool]

  /** The error met by reading values of `kinds` in order from `ts`: the
      first value that is missing or of another kind. */
  function FirstReadError(ts: seq<Token>, kinds: seq<Kind>): ReadError
    decreases kinds
  {
    if |kinds| == 0 || |ts| == 0 then EndOfStream
    else if KindOf(ts[0]) != kinds[0] then Mismatch(kinds[0], KindOf(ts[0]))
    else FirstReadError(ts[1..], kinds[1..])
  }

  /** Reads one slot's values into `c` (field, head, tail, free index page,
      five options), keeping its slot number. */
  function ReadSlot(c: CollectionIndex, ts: seq<Token>): (r: Result<(CollectionIndex, seq<Token>), ReadError>)
    ensures r.Success? <==> SlotShaped(ts)
    ensures r.Success? ==> r.value.0.slot == c.slot && r.value.1 == ts[9..]
  {
    if SlotShaped(ts) then
      var options := IndexOptions(ts[4].b, ts[5].b, ts[6].b, ts[7].b, ts[8].b);
      Success((c.(field := ts[0].s, headNode := ts[1].a, tailNode := ts[2].a,
                  freeIndexPageID := ts[3].u, options := options),
               ts[9..]))
    else Failure(FirstReadError(ts, SLOT_KINDS))
  }

  /** Reads every slot of `slots` in ascending order, overwriting its
      contents and keeping its slot number. */
  function ReadSlots(slots: seq<CollectionIndex>, ts: seq<Token>): (r: Result<(seq<CollectionIndex>, seq<Token>), ReadError>)
    ensures r.Success? ==> |r.value.0| == |slots|
  {
    if |slots| == 0 then Success(([], ts))
    else
      var head :- ReadSlot(slots[0], ts);
      var tail :- ReadSlots(slots[1..], head.1);
      Success(([head.0] + tail.0, tail.1))
  }

  /** One step of reading the slot array, once its first slot has been read. */
  lemma ReadSlotsCons(slots: seq<CollectionIndex>, ts: seq<Token>, c: CollectionIndex, after: seq<Token>)
    requires |slots| > 0 && ReadSlot(slots[0], ts) == Success((c, after))
    ensures ReadSlots(slots, ts) ==
      match ReadSlots(slots[1..], after)
      case Success(t) => Success(([c] + t.0, t.1))
      case Failure(e) => Failure(e)
  {
  }

  /** Reading the slot array consumes exactly nine values per slot. */
  lemma {:induction false} ReadSlotsConsumes(slots: seq<CollectionIndex>, ts: seq<Token>)
    requires ReadSlots(slots, ts).Success?
    ensures |ts| >= 9 * |slots| && ReadSlots(slots, ts).value.1 == ts[9 * |slots|..]
    decreases |slots|
  {
    if |slots| > 0 {
      var h := ReadSlot(slots[0], ts);
      assert h.Success?;
      ReadSlotsCons(slots, ts, h.value.0, h.value.1);
      ReadSlotsConsumes(slots[1..], h.value.1);
      assert h.value.1[9 * (|slots| - 1)..] == ts[9 * |slots|..];
    }
  }

  /** Two slot arrays of equal length whose slots have the same numbers, position by position. */
  predicate SameNumbers(a: seq<CollectionIndex>, b: seq<CollectionIndex>) {
    |a| == |b| && forall i :: 0 <= i < |a| ==> a[i].slot == b[i].slot
  }

  lemma SameNumbersCons(x: CollectionIndex, a: seq<CollectionIndex>, b: seq<CollectionIndex>)
    requires |b| > 0 && x.slot == b[0].slot && SameNumbers(a, b[1..])
    ensures SameNumbers([x] + a, b)
  {
  }

  /** Reading the slot array overwrites contents only: every slot keeps its number. */
  lemma {:induction false} ReadSlotsKeepsNumbers(slots: seq<CollectionIndex>, ts: seq<Token>)
    requires ReadSlots(slots, ts).Success?
    ensures SameNumbers(ReadSlots(slots, ts).value.0, slots)
    decreases |slots|
  {
    if |slots| > 0 {
      var h := ReadSlot(slots[0], ts);
      assert h.Success?;
      ReadSlotsCons(slots, ts, h.value.0, h.value.1);
      ReadSlotsKeepsNumbers(slots[1..], h.value.1);
      SameNumbersCons(h.value.0, ReadSlots(slots[1..], h.value.1).value.0, slots);
    }
  }

  /** Reads the content region into page `p`: the header of `p` and the
      slot numbers stay, everything else is replaced by what the stream
      holds. Returns the page and the unconsumed rest of the stream. */
  function ReadContent(p: CollectionPage, ts: seq<Token>): (r: Result<(CollectionPage, seq<Token>), ReadError>)
    ensures r.Success? ==>
      var q := r.value.0;
      q.pageID == p.pageID && q.itemCount == p.itemCount && q.freeBytes == p.freeBytes &&
      SameNumbers(q.indexes, p.indexes)
  {
    var name :- ReadString(ts);
    var freeData :- ReadUInt32(name.1);
    var uintCount :- ReadUInt32(freeData.1);
    var slots :- ReadSlots(p.indexes, uintCount.1);
    ReadSlotsKeepsNumbers(p.indexes, uintCount.1);
    var longCount :- ReadInt64(slots.1);
    Success((p.(collectionName := name.0, freeDataPageID := freeData.0,
                documentCount := ResolveCount(uintCount.0, longCount.0),
                indexes := slots.0),
             longCount.1))
  }

  // ---------------------------------------------------------------- slot queries

  /** The first position at or after `i` whose slot is empty, scanning in
      ascending order. */
  function FirstEmpty(slots: seq<CollectionIndex>, i: nat): (k: Option<nat>)
    requires i <= |slots|
    ensures k.Some? ==> i <= k.value < |slots| && slots[k.value].IsEmpty()
    ensures k.Some? ==> forall j :: i <= j < k.value ==> !slots[j].IsEmpty()
    ensures k.None? <==> forall j :: i <= j < |slots| ==> !slots[j].IsEmpty()
    decreases |slots| - i
  {
    if i == |slots| then None
    else if slots[i].IsEmpty() then Some(i)
    else FirstEmpty(slots, i + 1)
  }

  /** The first free slot, or IndexLimitExceeded naming the collection when
      every slot is in use. */
  function GetFreeIndex(p: CollectionPage): (r: Result<CollectionIndex, LiteError>)
    ensures r.Failure? <==> forall j :: 0 <= j < |p.indexes| ==> !p.indexes[j].IsEmpty()
    ensures r.Failure? ==> r.error == IndexLimitExceeded(p.collectionName)
    ensures r.Success? ==> r.value.IsEmpty()
    ensures r.Success? ==>
      exists k :: 0 <= k < |p.indexes| && p.indexes[k] == r.value &&
        forall j :: 0 <= j < k ==> !p.indexes[j].IsEmpty()
    ensures r.Success? && WellFormed(p) ==>
      r.value.slot < |p.indexes| && p.indexes[r.value.slot] == r.value &&
      (forall j :: 0 <= j < r.value.slot ==> !p.indexes[j].IsEmpty())
  {
    match FirstEmpty(p.indexes, 0)
    case Some(k) => Success(p.indexes[k])
    case None => Failure(IndexLimitExceeded(p.collectionName))
  }

  /** Position of the first slot whose field is exactly `field`. */
  function FindField(slots: seq<CollectionIndex>, field: string): (k: Option<nat>)
    ensures k.Some? ==> k.value < |slots| && slots[k.value].field == field
    ensures k.Some? ==> forall j :: 0 <= j < k.value ==> slots[j].field != field
    ensures k.None? <==> forall j :: 0 <= j < |slots| ==> slots[j].field != field
  {
    if |slots| == 0 then None
    else if slots[0].field == field then Some(0)
    else
      match FindField(slots[1..], field)
      case Some(k) => Some(k + 1)
      case None => None
  }

  /** The first slot indexing `field` (case-sensitive), or None. */
  function GetIndex(p: CollectionPage, field: string): (r: Option<CollectionIndex>)
    ensures r.None? <==> forall j :: 0 <= j < |p.indexes| ==> p.indexes[j].field != field
    ensures r.Some? ==> r.value.field == field
    ensures r.Some? ==>
      exists k :: 0 <= k < |p.indexes| && p.indexes[k] == r.value &&
        forall j :: 0 <= j < k ==> p.indexes[j].field != field
  {
    match FindField(p.indexes, field)
    case Some(k) => Some(p.indexes[k])
    case None => None
  }

  /** The primary-key index. */
  function PK(p: CollectionPage): (c: CollectionIndex)
    requires WellFormed(p)
    ensures c.slot == 0 && c in p.indexes
  {
    p.indexes[0]
  }

  /** Slot numbers strictly increase along the sequence. */
  predicate AscendingSlots(slots: seq<CollectionIndex>) {
    forall i, j :: 0 <= i < j < |slots| ==> slots[i].slot < slots[j].slot
  }

  /** The used slots numbered at least `lower`, in sequence order. */
  function UsedSlots(slots: seq<CollectionIndex>, lower: nat): (r: seq<CollectionIndex>)
    ensures |r| <= |slots|
    ensures forall x :: x in r <==> x in slots && !x.IsEmpty() && x.slot >= lower
  {
    if |slots| == 0 then []
    else
      var rest := UsedSlots(slots[1..], lower);
      assert slots == [slots[0]] + slots[1..];
      if !slots[0].IsEmpty() && slots[0].slot >= lower then [slots[0]] + rest
      else rest
  }

  /** In an ascending sequence the first slot number is below every later one. */
  lemma HeadBelowTail(slots: seq<CollectionIndex>)
    requires |slots| > 0 && AscendingSlots(slots)
    ensures forall x :: x in slots[1..] ==> slots[0].slot < x.slot
  {
  }

  /** Putting a slot numbered below all of an ascending sequence in front keeps it ascending. */
  lemma AscendingCons(x: CollectionIndex, rest: seq<CollectionIndex>)
    requires AscendingSlots(rest) && forall y :: y in rest ==> x.slot < y.slot
    ensures AscendingSlots([x] + rest)
  {
  }

  /** Filtering keeps slot numbers ascending. */
  lemma {:induction false} UsedSlotsAscending(slots: seq<CollectionIndex>, lower: nat)
    ensures AscendingSlots(slots) ==> AscendingSlots(UsedSlots(slots, lower))
    decreases |slots|
  {
    if |slots| > 0 && AscendingSlots(slots) {
      var rest := UsedSlots(slots[1..], lower);
      assert AscendingSlots(slots[1..]);
      UsedSlotsAscending(slots[1..], lower);
      if !slots[0].IsEmpty() && slots[0].slot >= lower {
        HeadBelowTail(slots);
        AscendingCons(slots[0], rest);
      }
    }
  }

  /** All used indexes, in ascending slot order; the primary key only
      when `includePK` holds. */
  function GetIndexes(p: CollectionPage, includePK: bool): (r: seq<CollectionIndex>)
    ensures forall x :: x in r <==>
      x in p.indexes && !x.IsEmpty() && (includePK || x.slot >= 1)
    ensures WellFormed(p) ==> AscendingSlots(r)
  {
    var lower := if includePK then 0 else 1;
    UsedSlotsAscending(p.indexes, lower);
    UsedSlots(p.indexes, lower)
  }
}
