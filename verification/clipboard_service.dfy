/**
 * The clipboard item service: a document store of clipboard items keyed
 * by item id, and the operations that list, add, edit, pin, delete,
 * clear and reorder them.
 *
 * The document store, the clock, the id generator and the image codec are
 * collaborators: the codec is a pair of functions given to the store when
 * it is built, and the current time, the new item id and the storage key
 * the store assigns to a new document are parameters of the operations.
 */
module ClipboardService {
  import opened Wrappers
  import opened ClipboardTypes
  import opened ClipboardOrder

  datatype ServiceError =
    | NotFound(id: string)   // `updateTextItem` on an id with no document
    | EncodeFailed           // the image could not be read as a data URL

  // ---- the store as a map, and the sequences read from it ----

  /** Every document is filed under its own id. */
  ghost predicate IdKeyed(m: map<string, Doc>) {
    forall k | k in m :: m[k].id == k
  }

  /** Every element of `s` is the document `m` files under its id. */
  ghost predicate AllStored(s: seq<Doc>, m: map<string, Doc>) {
    forall i | 0 <= i < |s| :: s[i].id in m && m[s[i].id] == s[i]
  }

  /** No two elements of `s` share an id. */
  ghost predicate DistinctIds(s: seq<Doc>) {
    forall i, j | 0 <= i < j < |s| :: s[i].id != s[j].id
  }

  /** Every key of `m` is the id of some element of `s`. */
  ghost predicate CoversKeys(s: seq<Doc>, m: map<string, Doc>) {
    forall k | k in m :: exists i | 0 <= i < |s| :: s[i].id == k
  }

  /** `s` lists every document of `m` exactly once, in some order. */
  ghost predicate Enumerates(s: seq<Doc>, m: map<string, Doc>) {
    |s| == |m| && AllStored(s, m) && DistinctIds(s) && CoversKeys(s, m)
  }

  /** In a sequence with pairwise distinct ids every element occurs at most once. */
  lemma {:induction false} DistinctIdsOccurOnce(s: seq<Doc>, x: Doc)
    requires forall i, j | 0 <= i < j < |s| :: s[i].id != s[j].id
    ensures multiset(s)[x] <= 1
  {
    if s != [] {
      var t := s[1..];
      assert s == [s[0]] + t;
      assert forall i | 0 <= i < |t| :: t[i] == s[i + 1];
      DistinctIdsOccurOnce(t, x);
      if s[0] == x {
        forall i | 0 <= i < |t| ensures t[i] != x {
          assert s[i + 1].id != s[0].id;
        }
        assert multiset(t)[x] == 0;
      }
    }
  }

  /** An element found at two positions occurs at least twice. */
  lemma TwiceInMultiset(s: seq<Doc>, i: int, j: int)
    requires 0 <= i < j < |s| && s[i] == s[j]
    ensures multiset(s)[s[i]] >= 2
  {
    assert s == s[..j] + [s[j]] + s[j + 1..];
    assert s[i] in s[..j];
  }

  /** Any permutation of a listing of the store is again a listing of it. */
  lemma PermutationEnumerates(r: seq<Doc>, s: seq<Doc>, m: map<string, Doc>)
    requires Enumerates(s, m) && multiset(r) == multiset(s)
    ensures Enumerates(r, m)
  {
    assert |r| == |multiset(r)| == |multiset(s)| == |s|;
    forall i | 0 <= i < |r| ensures r[i].id in m && m[r[i].id] == r[i] {
      assert r[i] in multiset(s);
    }
    forall i, j | 0 <= i < j < |r| ensures r[i].id != r[j].id {
      if r[i].id == r[j].id {
        TwiceInMultiset(r, i, j);
        DistinctIdsOccurOnce(s, r[i]);
      }
    }
    forall k | k in m ensures exists i | 0 <= i < |r| :: r[i].id == k {
      var j :| 0 <= j < |s| && s[j].id == k;
      assert s[j] in multiset(r);
      var i :| 0 <= i < |r| && r[i] == s[j];
    }
  }

  // ---- hydration ----

  /**
   * `hydrateItem` together with `dataUrlToBlob`: an image document whose
   * data decodes gets a handle that carries the document's media type; an
   * image whose data does not decode, and every text document, is returned
   * as stored, without a handle.
   */
  function Hydrate(d: Doc, decode: string -> Option<Blob>): (item: ClipboardItem)
    ensures item.doc == d
    ensures d.payload.Text? ==> item.blob.None?
    ensures d.payload.Image? ==> (item.blob.Some? <==> decode(d.payload.imageData).Some?)
    ensures item.blob.Some? ==>
      && d.payload.Image?
      && item.blob.value.mimeType == d.payload.mimeType
      && item.blob.value.bytes == decode(d.payload.imageData).value.bytes
  {
    match d.payload
    case Text(_) => ClipboardItem(d, None)
    case Image(data, mimeType) =>
      match decode(data)
      case None => ClipboardItem(d, None)
      case Some(b) =>
        var blob := if b.mimeType == mimeType then b else Blob(b.bytes, mimeType);
        ClipboardItem(d, Some(blob))
  }

  /** `Promise.all(sorted.map(hydrateItem))`. */
  function HydrateAll(s: seq<Doc>, decode: string -> Option<Blob>): (items: seq<ClipboardItem>)
    ensures DocsOf(items) == s
    ensures forall i | 0 <= i < |s| :: items[i] == Hydrate(s[i], decode)
  {
    seq(|s|, i requires 0 <= i < |s| => Hydrate(s[i], decode))
  }

  // ---- the orders given on insert, pin and unpin, stated over the store ----

  /**
   * `o` is the order of a newly added item: one below the least order,
   * other than `MAX_SAFE_INTEGER`, over all documents of both partitions,
   * or -1 when there is no such order.
   */
  ghost predicate IsInsertOrder(m: map<string, Doc>, o: int) {
    && (forall k | k in m && Ord(m[k]) != MAX_SAFE_INTEGER :: o < Ord(m[k]))
    && (|| (exists k | k in m :: Ord(m[k]) != MAX_SAFE_INTEGER && o == Ord(m[k]) - 1)
        || (o == -1 && forall k | k in m :: Ord(m[k]) == MAX_SAFE_INTEGER))
  }

  /**
   * `o` is the order of an item being pinned: one below the least order in
   * the pinned partition, or -1 when nothing is pinned.
   */
  ghost predicate IsPinOrder(m: map<string, Doc>, o: int) {
    && (forall k | k in m && m[k].pinned :: o < Ord(m[k]))
    && (|| (exists k | k in m :: m[k].pinned && o == Ord(m[k]) - 1)
        || (o == -1 && forall k | k in m :: !m[k].pinned))
  }

  /** The documents that take part in the unpin maximum: unpinned ones and the item itself. */
  ghost predicate UnpinCandidate(m: map<string, Doc>, id: string, k: string)
    requires k in m
  {
    (!m[k].pinned || k == id) && Ord(m[k]) != MAX_SAFE_INTEGER
  }

  /**
   * `o` is the order of the item `id` being unpinned: one above the
   * greatest order, other than `MAX_SAFE_INTEGER`, among the unpinned
   * documents and the item itself, or 1 when there is none.
   */
  ghost predicate IsUnpinOrder(m: map<string, Doc>, id: string, o: int) {
    && (forall k | k in m && UnpinCandidate(m, id, k) :: Ord(m[k]) < o)
    && (|| (exists k | k in m && UnpinCandidate(m, id, k) :: o == Ord(m[k]) + 1)
        || (o == 1 && forall k | k in m :: !UnpinCandidate(m, id, k)))
  }

  /** Computing the insertion order from any listing of the store gives the insertion order. */
  lemma InsertOrderFromListing(s: seq<Doc>, m: map<string, Doc>)
    requires Enumerates(s, m)
    ensures IsInsertOrder(m, GetMinOrder(s) - 1)
  {
    var r := GetMinOrder(s);
    forall k | k in m && Ord(m[k]) != MAX_SAFE_INTEGER ensures r - 1 < Ord(m[k]) {
      var i :| 0 <= i < |s| && s[i].id == k;
    }
    if forall i | 0 <= i < |s| :: Ord(s[i]) == MAX_SAFE_INTEGER {
      forall k | k in m ensures Ord(m[k]) == MAX_SAFE_INTEGER {
        var i :| 0 <= i < |s| && s[i].id == k;
      }
    } else {
      var i :| 0 <= i < |s| && Ord(s[i]) != MAX_SAFE_INTEGER && r == Ord(s[i]);
      assert s[i].id in m && Ord(m[s[i].id]) != MAX_SAFE_INTEGER && r - 1 == Ord(m[s[i].id]) - 1;
    }
  }

  /** Computing the pin order from any listing of the store gives the pin order. */
  lemma PinOrderFromListing(s: seq<Doc>, m: map<string, Doc>)
    requires Enumerates(s, m)
    ensures IsPinOrder(m, PinTargetOrder(s))
  {
    var r := PinTargetOrder(s);
    forall k | k in m && m[k].pinned ensures r < Ord(m[k]) {
      var i :| 0 <= i < |s| && s[i].id == k;
    }
    if forall i | 0 <= i < |s| :: !s[i].pinned {
      forall k | k in m ensures !m[k].pinned {
        var i :| 0 <= i < |s| && s[i].id == k;
      }
    } else {
      var i :| 0 <= i < |s| && s[i].pinned && r == Ord(s[i]) - 1;
      assert s[i].id in m && m[s[i].id].pinned && r == Ord(m[s[i].id]) - 1;
    }
  }

  /** Computing the unpin order from any listing of the store gives the unpin order. */
  lemma UnpinOrderFromListing(s: seq<Doc>, m: map<string, Doc>, id: string)
    requires Enumerates(s, m)
    ensures IsUnpinOrder(m, id, UnpinTargetOrder(s, id))
  {
    var r := UnpinTargetOrder(s, id);
    forall k | k in m && UnpinCandidate(m, id, k) ensures Ord(m[k]) < r {
      var i :| 0 <= i < |s| && s[i].id == k;
    }
    if forall i | 0 <= i < |s| && (!s[i].pinned || s[i].id == id) :: Ord(s[i]) == MAX_SAFE_INTEGER {
      forall k | k in m ensures !UnpinCandidate(m, id, k) {
        var i :| 0 <= i < |s| && s[i].id == k;
      }
    } else {
      var i :| 0 <= i < |s| && (!s[i].pinned || s[i].id == id) && Ord(s[i]) != MAX_SAFE_INTEGER
        && r == Ord(s[i]) + 1;
      assert s[i].id in m && UnpinCandidate(m, id, s[i].id) && r == Ord(m[s[i].id]) + 1;
    }
  }

  /** The first item added to an empty store gets order -1. */
  lemma FirstInsertOrder(o: int)
    requires IsInsertOrder(map[], o)
    ensures o == -1
  {
  }

  /**
   * A newly added item is displayed before every unpinned document whose
   * order is other than `MAX_SAFE_INTEGER`.
   */
  lemma NewItemDisplayedFirst(m: map<string, Doc>, o: int, d: Doc)
    requires IsInsertOrder(m, o)
    requires !d.pinned && d.order == Num(o)
    ensures forall k | k in m && !m[k].pinned && Ord(m[k]) != MAX_SAFE_INTEGER :: CompareDocs(d, m[k]) < 0
  {
  }

  /** The document `id` with its pin status, order and update time rewritten. */
  function PinRewrite(m: map<string, Doc>, id: string, pinned: bool, o: int, now: int): (r: map<string, Doc>)
    requires id in m
    ensures r.Keys == m.Keys
  {
    m[id := m[id].(pinned := pinned, order := Num(o), updatedAt := Num(now))]
  }

  /** After pinning, the item is displayed before every other document. */
  lemma PinnedItemDisplayedFirst(m: map<string, Doc>, id: string, o: int, now: int)
    requires id in m && IsPinOrder(m, o)
    ensures var r := PinRewrite(m, id, true, o, now);
      forall k | k in r && k != id :: CompareDocs(r[id], r[k]) < 0
  {
    var r := PinRewrite(m, id, true, o, now);
    forall k | k in r && k != id ensures CompareDocs(r[id], r[k]) < 0 {
      assert r[k] == m[k];
    }
  }

  /**
   * After unpinning, the item is displayed after every pinned document and
   * after every unpinned document whose order is other than
   * `MAX_SAFE_INTEGER`.
   */
  lemma UnpinnedItemDisplayedAfter(m: map<string, Doc>, id: string, o: int, now: int)
    requires id in m && IsUnpinOrder(m, id, o)
    ensures var r := PinRewrite(m, id, false, o, now);
      forall k | k in r && k != id && (r[k].pinned || Ord(r[k]) != MAX_SAFE_INTEGER) ::
        CompareDocs(r[k], r[id]) < 0
  {
    var r := PinRewrite(m, id, false, o, now);
    forall k | k in r && k != id && (r[k].pinned || Ord(r[k]) != MAX_SAFE_INTEGER)
      ensures CompareDocs(r[k], r[id]) < 0
    {
      assert r[k] == m[k];
      if !r[k].pinned {
        assert UnpinCandidate(m, id, k);
      }
    }
  }

  // ---- deletion ----

  /** The document carries a truthy `_id`: a non-empty storage key. */
  predicate HasStorageKey(d: Doc) {
    d.storageKey.Some? && d.storageKey.value != ""
  }

  /** The store after `deleteItem(id)`. */
  function AfterDelete(m: map<string, Doc>, id: string): (r: map<string, Doc>)
    ensures id in m && HasStorageKey(m[id]) ==> r.Keys == m.Keys - {id}
    ensures !(id in m && HasStorageKey(m[id])) ==> r == m
    ensures forall k | k in r :: k in m && r[k] == m[k]
  {
    if id in m && HasStorageKey(m[id]) then m - {id} else m
  }

  /** Deleting is idempotent: a second delete of the same id changes nothing. */
  lemma DeleteIdempotent(m: map<string, Doc>, id: string)
    ensures AfterDelete(AfterDelete(m, id), id) == AfterDelete(m, id)
  {
  }

  /** The ids of the documents that carry a storage key. */
  function KeyedIds(m: map<string, Doc>): set<string> {
    set k | k in m && HasStorageKey(m[k])
  }

  /** `docs.map(_id).filter(Boolean)`: the documents that carry a storage key, in order. */
  function KeyedDocs(s: seq<Doc>): (r: seq<Doc>)
    ensures forall d :: d in r <==> d in s && HasStorageKey(d)
  {
    if s == [] then []
    else
      var last := s[|s| - 1];
      assert s == s[..|s| - 1] + [last];
      KeyedDocs(s[..|s| - 1]) + (if HasStorageKey(last) then [last] else [])
  }

  /** Dropping the last document of a listing lists the store without it. */
  lemma EnumeratesDropLast(s: seq<Doc>, m: map<string, Doc>)
    requires Enumerates(s, m) && |s| > 0
    ensures Enumerates(s[..|s| - 1], m - {s[|s| - 1].id})
  {
    RemoveSize(m, s[|s| - 1].id);
    DropLastDistinct(s);
    DropLastStored(s, m);
    DropLastCovered(s, m);
  }

  /** Removing a stored key removes exactly one entry. */
  lemma RemoveSize(m: map<string, Doc>, k: string)
    requires k in m
    ensures |m - {k}| == |m| - 1
  {
    assert (m - {k}).Keys == m.Keys - {k};
  }

  /** Dropping the last element keeps the ids pairwise distinct. */
  lemma DropLastDistinct(s: seq<Doc>)
    requires |s| > 0 && DistinctIds(s)
    ensures DistinctIds(s[..|s| - 1])
  {
    var s' := s[..|s| - 1];
    forall i, j | 0 <= i < j < |s'| ensures s'[i].id != s'[j].id {
      assert s'[i] == s[i] && s'[j] == s[j];
    }
  }

  /** The elements before the last are stored under their ids once the last id is removed. */
  lemma DropLastStored(s: seq<Doc>, m: map<string, Doc>)
    requires |s| > 0 && AllStored(s, m) && DistinctIds(s)
    ensures AllStored(s[..|s| - 1], m - {s[|s| - 1].id})
  {
    var s', m' := s[..|s| - 1], m - {s[|s| - 1].id};
    forall i | 0 <= i < |s'| ensures s'[i].id in m' && m'[s'[i].id] == s'[i] {
      assert s'[i] == s[i] && s[i].id != s[|s| - 1].id;
    }
  }

  /** Every id left after removing the last one is that of an element before the last. */
  lemma DropLastCovered(s: seq<Doc>, m: map<string, Doc>)
    requires |s| > 0 && CoversKeys(s, m)
    ensures CoversKeys(s[..|s| - 1], m - {s[|s| - 1].id})
  {
    var s', m' := s[..|s| - 1], m - {s[|s| - 1].id};
    forall k | k in m' ensures exists i | 0 <= i < |s'| :: s'[i].id == k {
      var i :| 0 <= i < |s| && s[i].id == k;
      assert s'[i].id == k;
    }
  }

  /**
   * The number of documents with a storage key in a listing is the number
   * of such documents in the store.
   */
  lemma {:induction false} KeyedDocsOfListing(s: seq<Doc>, m: map<string, Doc>)
    requires Enumerates(s, m)
    ensures |KeyedDocs(s)| == |KeyedIds(m)|
    decreases |s|
  {
    if s == [] {
      assert KeyedIds(m) <= m.Keys;
    } else {
      var d := s[|s| - 1];
      var m' := m - {d.id};
      EnumeratesDropLast(s, m);
      KeyedDocsOfListing(s[..|s| - 1], m');
      KeyedIdsRemove(m, d.id);
    }
  }

  /** Removing one document removes its id from the keyed ids, if it was there. */
  lemma KeyedIdsRemove(m: map<string, Doc>, k: string)
    requires k in m
    ensures KeyedIds(m) == KeyedIds(m - {k}) + (if HasStorageKey(m[k]) then {k} else {})
    ensures k !in KeyedIds(m - {k})
  {
  }

  /** The store after `clearAllItems`: only documents without a storage key remain. */
  function AfterClear(m: map<string, Doc>): (r: map<string, Doc>)
    ensures r.Keys == m.Keys - KeyedIds(m)
    ensures forall k | k in r :: r[k] == m[k] && !HasStorageKey(r[k])
  {
    map k | k in m && !HasStorageKey(m[k]) :: m[k]
  }

  /**
   * Clearing twice removes nothing the second time, and clearing an empty
   * store removes nothing.
   */
  lemma ClearIdempotent(m: map<string, Doc>)
    ensures KeyedIds(AfterClear(m)) == {}
    ensures AfterClear(AfterClear(m)) == AfterClear(m)
    ensures m == map[] ==> KeyedIds(m) == {} && AfterClear(m) == map[]
  {
  }

  // ---- reordering ----

  /** The last position of `id` among the items, or -1. */
  function LastIndexOf(items: seq<ClipboardItem>, id: string): (r: int)
    ensures -1 <= r < |items|
    ensures r >= 0 ==> items[r].doc.id == id && forall j | r < j < |items| :: items[j].doc.id != id
    ensures r == -1 ==> forall j | 0 <= j < |items| :: items[j].doc.id != id
  {
    if items == [] then -1
    else if items[|items| - 1].doc.id == id then |items| - 1
    else LastIndexOf(items[..|items| - 1], id)
  }

  /**
   * The store after `updateItemsOrder(items)`: a document whose non-empty
   * id occurs in the input gets the input position as its order (the last
   * position if it occurs more than once) and a new update time; every
   * other document is unchanged.
   */
  function Reordered(m: map<string, Doc>, items: seq<ClipboardItem>, now: int): (r: map<string, Doc>)
    ensures r.Keys == m.Keys
    ensures forall k | k in m :: r[k].id == m[k].id
  {
    map k | k in m ::
      if k != "" && LastIndexOf(items, k) >= 0
      then m[k].(order := Num(LastIndexOf(items, k)), updatedAt := Num(now))
      else m[k]
  }

  /** Writes the documents one after the other, each replacing the one with its id. */
  function UpsertAll(m: map<string, Doc>, ds: seq<Doc>): (r: map<string, Doc>)
    ensures r.Keys == m.Keys + set i | 0 <= i < |ds| :: ds[i].id
  {
    if ds == [] then m
    else
      var p, d := ds[..|ds| - 1], ds[|ds| - 1];
      assert (set i | 0 <= i < |ds| :: ds[i].id) == (set i | 0 <= i < |p| :: p[i].id) + {d.id} by {
        assert forall i | 0 <= i < |p| :: p[i] == ds[i];
      }
      UpsertAll(m, p)[d.id := d]
  }

  /** A batch of writes leaves a document it does not write unchanged. */
  lemma {:induction false} UpsertAllUnwritten(m: map<string, Doc>, ds: seq<Doc>, k: string)
    requires k in m && forall i | 0 <= i < |ds| :: ds[i].id != k
    ensures UpsertAll(m, ds)[k] == m[k]
  {
    if ds != [] {
      UpsertAllUnwritten(m, ds[..|ds| - 1], k);
    }
  }

  /** After a batch of writes an id holds the last document written under it. */
  lemma {:induction false} UpsertAllLastWrite(m: map<string, Doc>, ds: seq<Doc>, i: int)
    requires 0 <= i < |ds| && forall j | i < j < |ds| :: ds[j].id != ds[i].id
    ensures UpsertAll(m, ds)[ds[i].id] == ds[i]
  {
    if i < |ds| - 1 {
      var p := ds[..|ds| - 1];
      assert p[i] == ds[i];
      assert forall j | i < j < |p| :: p[j] == ds[j];
      UpsertAllLastWrite(m, p, i);
    }
  }

  /** An input that names no stored document leaves the store as it is. */
  lemma ReorderedNothing(m: map<string, Doc>, items: seq<ClipboardItem>, now: int)
    requires forall i | 0 <= i < |items| :: items[i].doc.id == "" || items[i].doc.id !in m
    ensures Reordered(m, items, now) == m
  {
    var r := Reordered(m, items, now);
    forall k | k in m ensures r[k] == m[k] {
      var l := LastIndexOf(items, k);
    }
  }

  /** Writing one more document replaces the one with its id. */
  lemma UpsertAllSnoc(m: map<string, Doc>, ds: seq<Doc>, d: Doc)
    ensures UpsertAll(m, ds + [d]) == UpsertAll(m, ds)[d.id := d]
  {
    assert (ds + [d])[..|ds|] == ds;
  }

  /** The last position in a prefix one longer. */
  lemma LastIndexOfExtend(items: seq<ClipboardItem>, i: int, k: string)
    requires 0 <= i < |items|
    ensures LastIndexOf(items[..i + 1], k) ==
      if items[i].doc.id == k then i else LastIndexOf(items[..i], k)
  {
    assert items[..i + 1][..i] == items[..i];
  }

  /** Taking one more input item into account updates at most that item's document. */
  lemma ReorderedStep(m: map<string, Doc>, items: seq<ClipboardItem>, i: int, now: int)
    requires 0 <= i < |items|
    ensures var id := items[i].doc.id;
      Reordered(m, items[..i + 1], now) ==
        if id != "" && id in m
        then Reordered(m, items[..i], now)[id := m[id].(order := Num(i), updatedAt := Num(now))]
        else Reordered(m, items[..i], now)
  {
    var id := items[i].doc.id;
    var after, before := Reordered(m, items[..i + 1], now), Reordered(m, items[..i], now);
    var expected := if id != "" && id in m
      then before[id := m[id].(order := Num(i), updatedAt := Num(now))] else before;
    forall k | k in m ensures after[k] == expected[k] {
      ReorderedStepAt(m, items, i, now, k);
    }
    assert after.Keys == expected.Keys;
  }

  /** One document of `ReorderedStep`: only the item's own id can change. */
  lemma ReorderedStepAt(m: map<string, Doc>, items: seq<ClipboardItem>, i: int, now: int, k: string)
    requires 0 <= i < |items| && k in m
    ensures Reordered(m, items[..i + 1], now)[k] ==
      if k == items[i].doc.id && k != ""
      then m[k].(order := Num(i), updatedAt := Num(now))
      else Reordered(m, items[..i], now)[k]
  {
    LastIndexOfExtend(items, i, k);
  }

  /**
   * Reordering keeps every document's id, content, pin status, creation
   * time and storage key; only order and update time may change.
   */
  lemma ReorderedKeepsOtherFields(m: map<string, Doc>, items: seq<ClipboardItem>, now: int)
    ensures var r := Reordered(m, items, now);
      forall k | k in m :: r[k] == m[k].(order := r[k].order, updatedAt := r[k].updatedAt)
  {
  }

  /**
   * When the input names each document at most once, a found document gets
   * its input position as order, and two found documents of the same
   * partition are displayed in the order of the input.
   */
  lemma {:induction false} ReorderedFollowsInput(m: map<string, Doc>, items: seq<ClipboardItem>, now: int)
    requires forall i, j | 0 <= i < j < |items| :: items[i].doc.id != items[j].doc.id
    ensures var r := Reordered(m, items, now);
      && (forall i | 0 <= i < |items| && items[i].doc.id in m && items[i].doc.id != "" ::
            r[items[i].doc.id].order == Num(i))
      && (forall i, j | 0 <= i < j < |items| ::
            var a, b := items[i].doc.id, items[j].doc.id;
            a in m && b in m && a != "" && b != "" && m[a].pinned == m[b].pinned ==>
              CompareDocs(r[a], r[b]) < 0)
  {
    var r := Reordered(m, items, now);
    forall i | 0 <= i < |items| ensures LastIndexOf(items, items[i].doc.id) == i {
    }
  }

  /**
   * The first loop of `updateItemsOrder`: a map from every non-empty id
   * to its document.
   */
  method IndexById(fetched: seq<Doc>, ghost m: map<string, Doc>) returns (index: map<string, Doc>)
    requires Enumerates(fetched, m)
    ensures forall k | k in index :: k != "" && k in m && index[k] == m[k]
    ensures forall k | k in m && k != "" :: k in index
  {
    index := map[];
    for j := 0 to |fetched|
      invariant forall k | k in index :: k != "" && k in m && index[k] == m[k]
      invariant forall i | 0 <= i < j && fetched[i].id != "" :: fetched[i].id in index
    {
      if fetched[j].id != "" {
        index := index[fetched[j].id := fetched[j]];
      }
    }
    forall k | k in m && k != "" ensures k in index {
      var i :| 0 <= i < |fetched| && fetched[i].id == k;
    }
  }

  /**
   * The second loop of `updateItemsOrder`: for each input position whose id
   * is indexed, the indexed document with that position as order and a new
   * update time; writing them in turn gives the reordered store.
   */
  method OrderUpdates(m: map<string, Doc>, index: map<string, Doc>, items: seq<ClipboardItem>, now: int)
    returns (docsToSave: seq<Doc>)
    requires IdKeyed(m)
    requires forall k | k in index :: k != "" && k in m && index[k] == m[k]
    requires forall k | k in m && k != "" :: k in index
    ensures UpsertAll(m, docsToSave) == Reordered(m, items, now)
  {
    docsToSave := [];
    ReorderedNothing(m, items[..0], now);
    for i := 0 to |items|
      invariant UpsertAll(m, docsToSave) == Reordered(m, items[..i], now)
    {
      var id := items[i].doc.id;
      ReorderedStep(m, items, i, now);
      if id in index {
        var updated := index[id].(order := Num(i), updatedAt := Num(now));
        assert updated == m[id].(order := Num(i), updatedAt := Num(now)) && updated.id == id;
        UpsertAllSnoc(m, docsToSave, updated);
        docsToSave := docsToSave + [updated];
      }
    }
    assert items[..|items|] == items;
  }

  /** The order `setPinStatus` gives the item, computed from a listing of the store. */
  method NextPinOrder(listing: seq<Doc>, ghost m: map<string, Doc>, id: string, pinned: bool) returns (o: int)
    requires Enumerates(listing, m)
    ensures pinned ==> IsPinOrder(m, o)
    ensures !pinned ==> IsUnpinOrder(m, id, o)
  {
    if pinned {
      o := PinTargetOrder(listing);
      PinOrderFromListing(listing, m);
    } else {
      o := UnpinTargetOrder(listing, id);
      UnpinOrderFromListing(listing, m, id);
    }
  }

  // ---- the store ----

  /**
   * The item collection together with the image codec it is used with.
   * `encode` reads an image as a data URL (`blobToBase64`), `decode`
   * fetches a data URL back into a handle; both may fail.
   */
  class ClipboardStore {
    var docs: map<string, Doc>
    const encode: Blob -> Option<string>
    const decode: string -> Option<Blob>

    ghost predicate Valid()
      reads this
    {
      IdKeyed(docs)
    }

    constructor (encode: Blob -> Option<string>, decode: string -> Option<Blob>)
      ensures Valid() && docs == map[]
      ensures this.encode == encode && this.decode == decode
    {
      docs := map[];
      this.encode := encode;
      this.decode := decode;
    }

    /** `find({}).fetch()`: every document once, in an order the store chooses. */
    method Fetch() returns (s: seq<Doc>)
      requires Valid()
      ensures Enumerates(s, docs)
    {
      var remaining := docs.Keys;
      s := [];
      while remaining != {}
        invariant remaining <= docs.Keys
        invariant |s| + |remaining| == |docs|
        invariant forall i | 0 <= i < |s| :: s[i].id in docs && s[i].id !in remaining && docs[s[i].id] == s[i]
        invariant forall i, j | 0 <= i < j < |s| :: s[i].id != s[j].id
        invariant forall k | k in docs && k !in remaining :: exists i | 0 <= i < |s| :: s[i].id == k
        decreases remaining
      {
        var k :| k in remaining;
        ghost var before := s;
        s := s + [docs[k]];
        remaining := remaining - {k};
        assert s[|s| - 1].id == k;
        assert forall i | 0 <= i < |before| :: s[i] == before[i];
      }
    }

    /**
     * `getAllItems`: every stored document exactly once, in display order,
     * each hydrated; an image whose data does not decode is kept without a
     * handle.
     */
    method GetAllItems() returns (items: seq<ClipboardItem>)
      requires Valid()
      ensures Enumerates(DocsOf(items), docs)
      ensures Sorted(DocsOf(items))
      ensures forall i | 0 <= i < |items| :: items[i] == Hydrate(items[i].doc, decode)
    {
      var fetched := Fetch();
      var sorted := SortDocs(fetched);
      SortDocsSorted(fetched);
      PermutationEnumerates(sorted, fetched, docs);
      items := HydrateAll(sorted, decode);
    }

    /**
     * `addTextItem`: stores one new unpinned text document whose order is
     * the insertion order; no existing document changes. The store assigns
     * the new document its storage key `key`; the returned item has none.
     */
    method AddTextItem(content: string, id: string, now: int, key: string) returns (item: ClipboardItem)
      requires Valid() && id !in docs
      modifies this
      ensures Valid()
      ensures item.blob.None? && item.doc.storageKey.None?
      ensures item.doc.id == id && item.doc.payload == Text(content) && !item.doc.pinned
      ensures item.doc.createdAt == Num(now) && item.doc.updatedAt == Num(now)
      ensures item.doc.order.Num? && IsInsertOrder(old(docs), item.doc.order.n)
      ensures docs == old(docs)[id := item.doc.(storageKey := Some(key))]
    {
      var all := GetAllItems();
      var minOrder := GetMinOrder(DocsOf(all));
      InsertOrderFromListing(DocsOf(all), docs);
      var doc := Doc(id, Text(content), Num(now), Num(now), Num(minOrder - 1), false, None);
      docs := docs[id := doc.(storageKey := Some(key))];
      item := ClipboardItem(doc, None);
    }

    /**
     * `addImageItem`: like `addTextItem` for an image; when the image cannot
     * be encoded nothing is stored and the call fails. The returned item
     * carries the original handle.
     */
    method AddImageItem(blob: Blob, mimeType: string, id: string, now: int, key: string)
      returns (r: Result<ClipboardItem, ServiceError>)
      requires Valid() && id !in docs
      modifies this
      ensures Valid()
      ensures encode(blob).None? ==> r == Err(EncodeFailed) && docs == old(docs)
      ensures encode(blob).Some? ==> r.Ok?
      ensures r.Ok? ==>
        var item := r.value;
        && item.blob == Some(blob) && item.doc.storageKey.None?
        && item.doc.id == id && item.doc.payload == Image(encode(blob).value, mimeType) && !item.doc.pinned
        && item.doc.createdAt == Num(now) && item.doc.updatedAt == Num(now)
        && item.doc.order.Num? && IsInsertOrder(old(docs), item.doc.order.n)
        && docs == old(docs)[id := item.doc.(storageKey := Some(key))]
    {
      var all := GetAllItems();
      var minOrder := GetMinOrder(DocsOf(all));
      InsertOrderFromListing(DocsOf(all), docs);
      var imageData := encode(blob);
      if imageData.None? {
        return Err(EncodeFailed);
      }
      var doc := Doc(id, Image(imageData.value, mimeType), Num(now), Num(now), Num(minOrder - 1), false, None);
      docs := docs[id := doc.(storageKey := Some(key))];
      r := Ok(ClipboardItem(doc, Some(blob)));
    }

    /**
     * `updateTextItem`: fails when no document has the id; otherwise sets
     * the content and the update time and keeps everything else. On an
     * image document the source also stores a `content` field, which the
     * image payload here does not have, so only the update time changes.
     */
    method UpdateTextItem(id: string, content: string, now: int) returns (r: Outcome<ServiceError>)
      requires Valid()
      modifies this
      ensures Valid()
      ensures id !in old(docs) ==> r == Fail(NotFound(id)) && docs == old(docs)
      ensures id in old(docs) ==>
        var d := old(docs)[id];
        && r == Pass
        && docs == old(docs)[id := d.(
             payload := if d.payload.Text? then Text(content) else d.payload,
             updatedAt := Num(now))]
    {
      if id !in docs {
        return Fail(NotFound(id));
      }
      var existing := docs[id];
      var payload := if existing.payload.Text? then Text(content) else existing.payload;
      docs := docs[id := existing.(payload := payload, updatedAt := Num(now))];
      r := Pass;
    }

    /**
     * `setPinStatus`: no-op for an absent id; otherwise sets the pin status,
     * rewrites the order by the pin or unpin rule and sets the update time.
     */
    method SetPinStatus(id: string, pinned: bool, now: int)
      requires Valid()
      modifies this
      ensures Valid()
      ensures id !in old(docs) ==> docs == old(docs)
      ensures id in old(docs) ==>
        && id in docs && docs[id].order.Num?
        && docs == PinRewrite(old(docs), id, pinned, docs[id].order.n, now)
        && (pinned ==> IsPinOrder(old(docs), docs[id].order.n))
        && (!pinned ==> IsUnpinOrder(old(docs), id, docs[id].order.n))
    {
      if id !in docs {
        return;
      }
      var all := GetAllItems();
      var nextOrder := NextPinOrder(DocsOf(all), docs, id, pinned);
      docs := PinRewrite(docs, id, pinned, nextOrder, now);
    }

    /** `deleteItem`: removes the document when it exists and has a storage key. */
    method DeleteItem(id: string)
      requires Valid()
      modifies this
      ensures Valid()
      ensures docs == AfterDelete(old(docs), id)
    {
      if id !in docs {
        return;
      }
      var item := docs[id];
      if HasStorageKey(item) {
        docs := docs - {id};
      }
    }

    /**
     * `clearAllItems`: removes every document that has a storage key and
     * returns how many that were.
     */
    method ClearAllItems() returns (count: nat)
      requires Valid()
      modifies this
      ensures Valid()
      ensures docs == AfterClear(old(docs))
      ensures count == |KeyedIds(old(docs))|
    {
      var fetched := Fetch();
      var keyed := KeyedDocs(fetched);
      KeyedDocsOfListing(fetched, docs);
      count := |keyed|;
      if count > 0 {
        docs := AfterClear(docs);
      }
    }

    /**
     * `updateItemsOrder`: indexes the stored documents by id, gives every
     * found input item its input position as order and a new update time,
     * skips input items that are not stored, and writes the changed
     * documents in one call, or nothing when none was found.
     */
    method UpdateItemsOrder(items: seq<ClipboardItem>, now: int)
      requires Valid()
      modifies this
      ensures Valid()
      ensures docs == Reordered(old(docs), items, now)
      ensures (forall i | 0 <= i < |items| :: items[i].doc.id == "" || items[i].doc.id !in old(docs)) ==>
        docs == old(docs)
    {
      if forall i | 0 <= i < |items| :: items[i].doc.id == "" || items[i].doc.id !in docs {
        ReorderedNothing(docs, items, now);
      }
      var fetched := Fetch();
      var index := IndexById(fetched, docs);
      var docsToSave := OrderUpdates(docs, index, items, now);
      if |docsToSave| > 0 {
        docs := UpsertAll(docs, docsToSave);
      }
    }

    /** `getMetadata` without the byte estimate. */
    method GetMetadata() returns (md: Metadata)
      requires Valid()
      ensures md.total == |docs|
      ensures md.textCount == |TextIds(docs)| && md.imageCount == |ImageIds(docs)|
      ensures md.textCount + md.imageCount == md.total
      ensures md.latestCreatedAt.None? <==> forall k | k in docs :: !Truthy(docs[k].createdAt)
      ensures md.latestCreatedAt.Some? ==>
        && (forall k | k in docs && Truthy(docs[k].createdAt) :: docs[k].createdAt.n <= md.latestCreatedAt.value)
        && (exists k | k in docs :: Truthy(docs[k].createdAt) && docs[k].createdAt.n == md.latestCreatedAt.value)
      ensures md.latestUpdatedAt.None? <==> forall k | k in docs :: !Truthy(docs[k].updatedAt)
      ensures md.latestUpdatedAt.Some? ==>
        && (forall k | k in docs && Truthy(docs[k].updatedAt) :: docs[k].updatedAt.n <= md.latestUpdatedAt.value)
        && (exists k | k in docs :: Truthy(docs[k].updatedAt) && docs[k].updatedAt.n == md.latestUpdatedAt.value)
    {
      var fetched := Fetch();
      md := ComputeMetadata(fetched);
      CountTextOfListing(fetched, docs);
      TextImagePartition(docs);
      LatestOverStore(fetched, docs, CreatedAtOf);
      LatestOverStore(fetched, docs, UpdatedAtOf);
    }
  }

  /** The ids of the text documents, and of the image documents. */
  function TextIds(m: map<string, Doc>): set<string> {
    set k | k in m && m[k].payload.Text?
  }

  function ImageIds(m: map<string, Doc>): set<string> {
    set k | k in m && m[k].payload.Image?
  }

  /** Every document is text or image, and not both. */
  lemma TextImagePartition(m: map<string, Doc>)
    ensures |TextIds(m)| + |ImageIds(m)| == |m|
  {
    assert TextIds(m) + ImageIds(m) == m.Keys;
    assert TextIds(m) * ImageIds(m) == {};
  }

  /** Removing one document removes its id from the text ids, if it was there. */
  lemma TextIdsRemove(m: map<string, Doc>, k: string)
    requires k in m
    ensures TextIds(m) == TextIds(m - {k}) + (if m[k].payload.Text? then {k} else {})
    ensures k !in TextIds(m - {k})
  {
  }

  /** The text count of any listing is the number of text documents in the store. */
  lemma {:induction false} CountTextOfListing(s: seq<Doc>, m: map<string, Doc>)
    requires Enumerates(s, m)
    ensures CountText(s) == |TextIds(m)|
    decreases |s|
  {
    if s == [] {
      assert TextIds(m) <= m.Keys;
    } else {
      var d := s[|s| - 1];
      var m' := m - {d.id};
      EnumeratesDropLast(s, m);
      CountTextOfListing(s[..|s| - 1], m');
      CountTextLast(s);
      TextIdsRemove(m, d.id);
    }
  }

  /** The latest truthy timestamp of a listing is the latest over the store. */
  lemma LatestOverStore(s: seq<Doc>, m: map<string, Doc>, field: Doc -> NumField)
    requires Enumerates(s, m)
    ensures var r := Latest(s, field);
      && (r.None? <==> forall k | k in m :: !Truthy(field(m[k])))
      && (r.Some? ==>
           && (forall k | k in m && Truthy(field(m[k])) :: field(m[k]).n <= r.value)
           && (exists k | k in m :: Truthy(field(m[k])) && field(m[k]).n == r.value))
  {
    var r := Latest(s, field);
    forall k | k in m ensures Truthy(field(m[k])) ==> r.Some? && field(m[k]).n <= r.value {
      var i :| 0 <= i < |s| && s[i].id == k;
    }
    if r.Some? {
      var i :| 0 <= i < |s| && Truthy(field(s[i])) && field(s[i]).n == r.value;
      assert s[i].id in m && m[s[i].id] == s[i];
    }
  }
}
