/** Properties of the collection page: the content round-trip, when a read
    succeeds, the two-copy document count, and how the slot queries relate. */
module CollectionPageLemmas {
  import opened Wrappers
  import opened Binary
  import opened CollectionIndexes
  import opened CollectionPages

  // ---------------------------------------------------------------- reading succeeds exactly on the layout

  /** Reading the slot array gets past its first slot exactly when that slot reads. */
  lemma ReadSlotsStep(slots: seq<CollectionIndex>, ts: seq<Token>)
    requires |slots| > 0
    ensures ReadSlots(slots, ts).Success? <==>
      SlotShaped(ts) && ReadSlots(slots[1..], ts[9..]).Success?
  {
  }

  /** Reading the slot array succeeds exactly when the stream starts with
      one slot's worth of values per slot. */
  lemma {:induction false} ReadSlotsDefined(slots: seq<CollectionIndex>, ts: seq<Token>)
    ensures ReadSlots(slots, ts).Success? <==> SlotsShaped(ts, |slots|)
    decreases |slots|
  {
    if |slots| > 0 {
      ReadSlotsStep(slots, ts);
      if SlotShaped(ts) {
        ReadSlotsDefined(slots[1..], ts[9..]);
      }
    }
  }

  /** Reading the content region succeeds exactly when the stream starts
      with values of the kinds the writer emits, in the writer's order. */
  lemma ReadContentDefined(p: CollectionPage, ts: seq<Token>)
    ensures ReadContent(p, ts).Success? <==> ContentShaped(ts, |p.indexes|)
  {
    var n := |p.indexes|;
    if |ts| >= 3 && ts[0].Str? && ts[1].U32? && ts[2].U32? {
      assert ts[1..][1..][1..] == ts[3..];
      ReadSlotsDefined(p.indexes, ts[3..]);
      if ReadSlots(p.indexes, ts[3..]).Success? {
        ReadSlotsConsumes(p.indexes, ts[3..]);
        assert ts[3..][9 * n..] == ts[ContentLength(n) - 1..];
      }
    }
  }

  /** A successful read consumes exactly the content region and leaves the rest. */
  lemma ReadContentConsumes(p: CollectionPage, ts: seq<Token>)
    requires ReadContent(p, ts).Success?
    ensures |ts| >= ContentLength(|p.indexes|)
    ensures ReadContent(p, ts).value.1 == ts[ContentLength(|p.indexes|)..]
  {
    var n := |p.indexes|;
    assert ts[1..][1..][1..] == ts[3..];
    ReadSlotsConsumes(p.indexes, ts[3..]);
    assert ts[3..][9 * n..][1..] == ts[ContentLength(n)..];
  }

  // ---------------------------------------------------------------- round trip

  /** Reading back a written slot restores all its values and keeps the
      reader's slot number, which the writer does not emit. */
  lemma ReadSlotRoundTrip(c: CollectionIndex, d: CollectionIndex, rest: seq<Token>)
    requires c.slot == d.slot
    ensures ReadSlot(c, WriteSlot(d) + rest) == Success((d, rest))
  {
  }

  /** Reading back what was written for a slot array restores every slot's
      contents and leaves exactly the rest of the stream. */
  lemma {:induction false} ReadSlotsRoundTrip(qs: seq<CollectionIndex>, ps: seq<CollectionIndex>, rest: seq<Token>)
    requires SameNumbers(qs, ps)
    ensures ReadSlots(qs, WriteSlots(ps) + rest) == Success((ps, rest))
    decreases |ps|
  {
    if |ps| > 0 {
      var tail := WriteSlots(ps[1..]) + rest;
      var ts := WriteSlots(ps) + rest;
      assert ts == WriteSlot(ps[0]) + tail;
      ReadSlotRoundTrip(qs[0], ps[0], tail);
      ReadSlotsCons(qs, ts, ps[0], tail);
      assert SameNumbers(qs[1..], ps[1..]);
      ReadSlotsRoundTrip(qs[1..], ps[1..], rest);
      assert ps == [ps[0]] + ps[1..];
    } else {
      assert WriteSlots(ps) + rest == rest;
    }
  }

  /** Writing a page's content and reading it into another well-formed page
      restores the name, the free data page, every slot and the document
      count, keeps the reader's header, and leaves exactly `rest`. */
  lemma ContentRoundTrip(p: CollectionPage, q: CollectionPage, rest: seq<Token>)
    requires WellFormed(p) && WellFormed(q)
    ensures ReadContent(q, WriteContent(p) + rest) ==
      Success((p.(pageID := q.pageID, itemCount := q.itemCount, freeBytes := q.freeBytes), rest))
  {
    var last := [I64(p.documentCount)] + rest;
    var body := WriteSlots(p.indexes) + last;
    var ts := WriteContent(p) + rest;
    assert ts == [Str(p.collectionName), U32(p.freeDataPageID), U32(LegacyCount(p.documentCount))] + body;
    assert ts[1..][1..][1..] == body;
    ReadSlotsRoundTrip(q.indexes, p.indexes, last);
  }

  /** A page read back into itself is unchanged. */
  lemma ContentRoundTripSelf(p: CollectionPage, rest: seq<Token>)
    requires WellFormed(p)
    ensures ReadContent(p, WriteContent(p) + rest) == Success((p, rest))
  {
    ContentRoundTrip(p, p, rest);
  }

  /** Writing a slot just read gives back the nine values it was read from. */
  lemma ReadSlotThenWrite(c: CollectionIndex, ts: seq<Token>)
    requires ReadSlot(c, ts).Success?
    ensures WriteSlot(ReadSlot(c, ts).value.0) == ts[..9]
  {
  }

  /** Writing a slot array just read gives back the values it was read from. */
  lemma {:induction false} ReadSlotsThenWrite(slots: seq<CollectionIndex>, ts: seq<Token>)
    requires ReadSlots(slots, ts).Success?
    ensures |ts| >= 9 * |slots|
    ensures WriteSlots(ReadSlots(slots, ts).value.0) == ts[..9 * |slots|]
    decreases |slots|
  {
    if |slots| > 0 {
      var h := ReadSlot(slots[0], ts);
      assert h.Success?;
      ReadSlotsCons(slots, ts, h.value.0, h.value.1);
      ReadSlotThenWrite(slots[0], ts);
      ReadSlotsThenWrite(slots[1..], h.value.1);
      var t := ReadSlots(slots[1..], h.value.1).value.0;
      assert ([h.value.0] + t)[1..] == t;
      assert ts[..9 * |slots|] == ts[..9] + h.value.1[..9 * (|slots| - 1)];
    }
  }

  /** Whatever stream a read succeeds on, including one whose two count
      copies disagree, the page read writes back the same name, free data
      page and slot values; only the two count positions may differ. */
  lemma ReadContentThenWrite(p: CollectionPage, ts: seq<Token>)
    requires ReadContent(p, ts).Success?
    ensures |ts| >= ContentLength(|p.indexes|)
    ensures var w := WriteContent(ReadContent(p, ts).value.0);
      |w| == ContentLength(|p.indexes|) && w[..2] == ts[..2] && w[3..|w| - 1] == ts[3..|w| - 1]
  {
    var n := |p.indexes|;
    assert ts[1..][1..][1..] == ts[3..];
    ReadSlotsThenWrite(p.indexes, ts[3..]);
    ReadSlotsConsumes(p.indexes, ts[3..]);
    var q := ReadContent(p, ts).value.0;
    assert q.indexes == ReadSlots(p.indexes, ts[3..]).value.0;
    var w := WriteContent(q);
    assert w[3..|w| - 1] == WriteSlots(q.indexes);
    assert ts[3..|w| - 1] == ts[3..][..9 * n];
  }

  // ---------------------------------------------------------------- document count

  /** Saturating on write and taking the maximum on read gives back every count. */
  lemma LegacyThenResolve(c: Count)
    ensures ResolveCount(LegacyCount(c), c) == c
  {
  }

  /** The count read back is the larger of the 4-byte and 8-byte copies in
      the stream, so it is never below either. */
  lemma ReadCountIsMax(p: CollectionPage, ts: seq<Token>)
    requires ReadContent(p, ts).Success?
    ensures |ts| >= ContentLength(|p.indexes|)
    ensures ts[2].U32? && ts[ContentLength(|p.indexes|) - 1].I64?
    ensures ReadContent(p, ts).value.0.documentCount ==
      ResolveCount(ts[2].u, ts[ContentLength(|p.indexes|) - 1].l)
  {
    var n := |p.indexes|;
    assert ts[1..][1..][1..] == ts[3..];
    ReadSlotsConsumes(p.indexes, ts[3..]);
    assert ts[3..][9 * n..][0] == ts[ContentLength(n) - 1];
  }

  /** A page holding more than `uint.MaxValue` documents keeps its exact count. */
  lemma LargeCountSurvives(p: CollectionPage, rest: seq<Token>)
    requires WellFormed(p) && p.documentCount == 5_000_000_000
    ensures WriteContent(p)[2] == U32(UINT32_MAX)
    ensures ReadContent(p, WriteContent(p) + rest).Success?
    ensures ReadContent(p, WriteContent(p) + rest).value.0.documentCount == 5_000_000_000
  {
    ContentRoundTripSelf(p, rest);
  }

  // ---------------------------------------------------------------- construction

  /** Filtering an array of empty slots leaves nothing. */
  lemma {:induction false} UsedSlotsOfEmpty(slots: seq<CollectionIndex>, lower: nat)
    requires forall i :: 0 <= i < |slots| ==> slots[i].IsEmpty()
    ensures UsedSlots(slots, lower) == []
    decreases |slots|
  {
    if |slots| > 0 {
      UsedSlotsOfEmpty(slots[1..], lower);
    }
  }

  /** A fresh page has no used index, hands out slot 0 first, and already
      carries the fixed header counts. */
  lemma FreshPage(pageID: uint32)
    ensures GetFreeIndex(NewPage(pageID)) == Success(EmptySlot(0))
    ensures GetIndexes(NewPage(pageID), true) == []
    ensures UpdateItemCount(NewPage(pageID)) == NewPage(pageID)
  {
    var p := NewPage(pageID);
    assert p.indexes[0] == EmptySlot(0);
    UsedSlotsOfEmpty(p.indexes, 0);
  }

  /** Re-establishing the header counts twice is the same as once. */
  lemma UpdateItemCountIdempotent(p: CollectionPage)
    ensures UpdateItemCount(UpdateItemCount(p)) == UpdateItemCount(p)
  {
  }

  /** Reading content keeps a page well-formed. */
  lemma ReadContentKeepsWellFormed(p: CollectionPage, ts: seq<Token>)
    requires WellFormed(p) && ReadContent(p, ts).Success?
    ensures WellFormed(ReadContent(p, ts).value.0)
  {
  }

  // ---------------------------------------------------------------- slot queries

  /** The free slot is the slot found by looking up the empty field name. */
  lemma FreeIndexIsEmptyFieldLookup(p: CollectionPage)
    ensures GetFreeIndex(p).Success? <==> GetIndex(p, "").Some?
    ensures GetFreeIndex(p).Success? ==> GetFreeIndex(p).value == GetIndex(p, "").value
  {
  }

  /** UsedSlots keeps every slot exactly when every slot is used and in range. */
  lemma {:induction false} UsedSlotsKeepsAll(slots: seq<CollectionIndex>, lower: nat)
    ensures |UsedSlots(slots, lower)| == |slots| <==>
      forall j :: 0 <= j < |slots| ==> !slots[j].IsEmpty() && slots[j].slot >= lower
    decreases |slots|
  {
    if |slots| > 0 {
      UsedSlotsKeepsAll(slots[1..], lower);
      assert forall j :: 1 <= j < |slots| ==> slots[j] == slots[1..][j - 1];
    }
  }

  /** No slot is free exactly when all INDEX_PER_COLLECTION slots are listed as used. */
  lemma FreeIndexFailsIffAllUsed(p: CollectionPage)
    requires WellFormed(p)
    ensures GetFreeIndex(p).Failure? <==> |GetIndexes(p, true)| == INDEX_PER_COLLECTION
  {
    UsedSlotsKeepsAll(p.indexes, 0);
  }

  /** The used-index list holds slot 0 exactly when the primary key is
      requested and in use. */
  lemma GetIndexesPrimaryKey(p: CollectionPage, includePK: bool)
    requires WellFormed(p)
    ensures (exists x :: x in GetIndexes(p, includePK) && x.slot == 0) <==>
      includePK && !PK(p).IsEmpty()
  {
  }

  /** Among slots numbered 1 and up, the lower bound 0 or 1 filters alike. */
  lemma {:induction false} UsedSlotsAboveZero(slots: seq<CollectionIndex>)
    requires forall j :: 0 <= j < |slots| ==> slots[j].slot >= 1
    ensures UsedSlots(slots, 0) == UsedSlots(slots, 1)
    decreases |slots|
  {
    if |slots| > 0 {
      UsedSlotsAboveZero(slots[1..]);
    }
  }

  /** The full list is the list without the primary key, preceded by the
      primary key when it is in use. */
  lemma GetIndexesWithAndWithoutPK(p: CollectionPage)
    requires WellFormed(p)
    ensures GetIndexes(p, true) ==
      (if PK(p).IsEmpty() then [] else [PK(p)]) + GetIndexes(p, false)
  {
    UsedSlotsAboveZero(p.indexes[1..]);
  }

  /** With the primary key and one secondary index in slots 0 and 1, the
      next free slot is slot 2. */
  lemma FreeIndexAfterTwo(p: CollectionPage)
    requires WellFormed(p)
    requires p.indexes[0].field == "_id" && p.indexes[1].field == "Age"
    requires p.indexes[2].IsEmpty()
    ensures GetFreeIndex(p) == Success(p.indexes[2])
  {
  }

  /** Field lookup is case-sensitive: on a page whose slot 1 indexes "Age",
      looking up "Age" finds slot 1 and looking up "age" finds nothing. */
  lemma GetIndexCaseSensitive(p: CollectionPage)
    requires WellFormed(p)
    requires p.indexes[1].field == "Age"
    requires forall j :: 0 <= j < |p.indexes| && j != 1 ==> p.indexes[j].field != "Age" && p.indexes[j].field != "age"
    ensures GetIndex(p, "Age") == Some(p.indexes[1])
    ensures GetIndex(p, "age").None?
  {
  }
}
