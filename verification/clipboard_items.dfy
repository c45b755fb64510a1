/**
 * The view-model over the store: the list of items on screen and the
 * selection cursor, kept in step with the store by each operation.
 */
module ClipboardItemsView {
  import opened Wrappers
  import opened ClipboardTypes
  import opened ClipboardOrder
  import opened ClipboardService
  import opened JsStrings

  /** `findIndex` by id: the first position holding the id, or -1. */
  function FindIndex(items: seq<ClipboardItem>, id: string): (r: int)
    ensures -1 <= r < |items|
    ensures r >= 0 ==> items[r].doc.id == id && forall j | 0 <= j < r :: items[j].doc.id != id
    ensures r == -1 ==> forall j | 0 <= j < |items| :: items[j].doc.id != id
  {
    if items == [] then -1
    else if items[0].doc.id == id then 0
    else var r := FindIndex(items[1..], id); if r == -1 then -1 else r + 1
  }

  /** The cursor after moving down: enters the list at the top, stops at the bottom. */
  function NextSelection(sel: int, len: nat): (r: int)
    ensures len == 0 ==> r == sel
    ensures len > 0 && -1 <= sel < len ==> 0 <= r < len
    ensures len > 0 && sel == -1 ==> r == 0
    ensures len > 0 && sel != -1 && sel < len - 1 ==> r == sel + 1
    ensures len > 0 && sel >= len - 1 ==> r == sel
  {
    if len == 0 then sel
    else if sel == -1 then 0
    else if sel < len - 1 then sel + 1
    else sel
  }

  /** The cursor after moving up: enters the list at the top, stops at the top. */
  function PreviousSelection(sel: int, len: nat): (r: int)
    ensures len == 0 ==> r == sel
    ensures len > 0 && -1 <= sel < len ==> 0 <= r < len
    ensures len > 0 && sel == -1 ==> r == 0
    ensures len > 0 && sel > 0 ==> r == sel - 1
    ensures len > 0 && sel == 0 ==> r == 0
    ensures len > 0 && sel < -1 ==> r == sel
  {
    if len == 0 then sel
    else if sel > 0 then sel - 1
    else if sel == -1 then 0
    else sel
  }

  /** Moving down then up, or up then down, away from the ends returns to the same item. */
  lemma NextPreviousRoundTrip(sel: int, len: nat)
    ensures 0 <= sel < len - 1 ==> PreviousSelection(NextSelection(sel, len), len) == sel
    ensures 0 < sel < len ==> NextSelection(PreviousSelection(sel, len), len) == sel
  {
  }

  /** The cursor after the list shrank to `len` items: pulled back onto the last item. */
  function ClampSelection(sel: int, len: nat): (r: int)
    ensures r < len
    ensures r <= sel
    ensures sel < len ==> r == sel
    ensures -1 <= sel ==> -1 <= r
    ensures len > 0 && 0 <= sel ==> 0 <= r
    ensures sel >= len ==> r == len - 1
  {
    if sel >= len then len - 1 else sel
  }

  /** The list entry after an edit of its text: new content, new update time. */
  function EditedText(item: ClipboardItem, content: string, now: int): (r: ClipboardItem)
    requires item.doc.payload.Text?
    ensures r.doc.payload == Text(content) && r.doc.updatedAt == Num(now)
    ensures r.doc.id == item.doc.id && r.blob == item.blob
    ensures r.doc.(payload := item.doc.payload, updatedAt := item.doc.updatedAt) == item.doc
  {
    item.(doc := item.doc.(payload := Text(content), updatedAt := Num(now)))
  }

  class ClipboardItemsView {
    var items: seq<ClipboardItem>
    var selectedIndex: int
    const service: ClipboardStore

    /** The store is well formed and the cursor is an index or -1 for "none". */
    ghost predicate Valid()
      reads this, service
    {
      service.Valid() && -1 <= selectedIndex
    }

    constructor (service: ClipboardStore)
      requires service.Valid()
      ensures Valid()
      ensures this.service == service && items == [] && selectedIndex == -1
    {
      this.service := service;
      items := [];
      selectedIndex := -1;
    }

    /** `loadItems`: the list becomes the store's sorted listing; the cursor is kept. */
    method LoadItems()
      requires Valid()
      modifies this`items
      ensures Valid()
      ensures Enumerates(DocsOf(items), service.docs)
      ensures Sorted(DocsOf(items))
      ensures forall i | 0 <= i < |items| :: items[i] == Hydrate(items[i].doc, service.decode)
    {
      items := service.GetAllItems();
    }

    /**
     * `addText`: blank input changes nothing; otherwise the trimmed text
     * is stored, shown first and selected.
     */
    method AddText(content: string, id: string, now: int, key: string)
      requires Valid() && id !in service.docs
      modifies this, service
      ensures Valid()
      ensures IsBlank(content) ==>
        items == old(items) && selectedIndex == old(selectedIndex) && service.docs == old(service.docs)
      ensures !IsBlank(content) ==>
        && |items| == |old(items)| + 1 && items[1..] == old(items) && selectedIndex == 0
        && items[0].doc.id == id && items[0].doc.payload == Text(Trim(content))
        && items[0].doc.createdAt == Num(now) && items[0].doc.updatedAt == Num(now)
        && !items[0].doc.pinned && items[0].blob.None?
        && items[0].doc.order.Num? && IsInsertOrder(old(service.docs), items[0].doc.order.n)
        && service.docs == old(service.docs)[id := items[0].doc.(storageKey := Some(key))]
      ensures old(selectedIndex) < |old(items)| ==> selectedIndex < |items|
    {
      var trimmed := Trim(content);
      TrimEmptyIffBlank(content);
      if trimmed == [] {
        return;
      }
      var item := service.AddTextItem(trimmed, id, now, key);
      items := [item] + items;
      assert items[1..] == old(items);
      selectedIndex := 0;
    }

    /**
     * `addImage`: a failure of the store leaves list and cursor alone;
     * otherwise the new item is shown first and selected.
     */
    method AddImage(blob: Blob, mimeType: string, id: string, now: int, key: string)
      returns (r: Outcome<ServiceError>)
      requires Valid() && id !in service.docs
      modifies this, service
      ensures Valid()
      ensures r.Fail? <==> service.encode(blob).None?
      ensures r.Fail? ==>
        items == old(items) && selectedIndex == old(selectedIndex) && service.docs == old(service.docs)
      ensures r.Pass? ==>
        && |items| == |old(items)| + 1 && items[1..] == old(items) && selectedIndex == 0
        && items[0].doc.id == id && items[0].blob == Some(blob)
        && items[0].doc.payload == Image(service.encode(blob).value, mimeType)
        && items[0].doc.createdAt == Num(now) && items[0].doc.updatedAt == Num(now)
        && !items[0].doc.pinned
        && items[0].doc.order.Num? && IsInsertOrder(old(service.docs), items[0].doc.order.n)
        && service.docs == old(service.docs)[id := items[0].doc.(storageKey := Some(key))]
    {
      var added := service.AddImageItem(blob, mimeType, id, now, key);
      if added.Err? {
        return Fail(added.error);
      }
      items := [added.value] + items;
      selectedIndex := 0;
      r := Pass;
    }

    /**
     * `updateText`: fails, changing nothing, when the store lacks the id;
     * otherwise the store is updated and so is the first list entry with
     * the id, when it is a text entry. The list gets the content as given.
     */
    method UpdateText(id: string, content: string, now: int) returns (r: Outcome<ServiceError>)
      requires Valid()
      modifies this, service
      ensures Valid()
      ensures selectedIndex == old(selectedIndex)
      ensures r.Fail? <==> id !in old(service.docs)
      ensures r.Fail? ==> r.error == NotFound(id) && items == old(items) && service.docs == old(service.docs)
      ensures r.Pass? ==>
        var d := old(service.docs)[id];
        service.docs == old(service.docs)[id := d.(
          payload := if d.payload.Text? then Text(content) else d.payload,
          updatedAt := Num(now))]
      ensures r.Pass? ==>
        var i := FindIndex(old(items), id);
        if i >= 0 && old(items)[i].doc.payload.Text? then
          items == old(items)[i := EditedText(old(items)[i], content, now)]
        else
          items == old(items)
    {
      r := service.UpdateTextItem(id, content, now);
      if r.Fail? {
        return;
      }
      var index := FindIndex(items, id);
      if index != -1 && items[index].doc.payload.Text? {
        items := items[index := EditedText(items[index], content, now)];
      }
    }

    /**
     * `deleteItem`: the store drops the document; the first list entry
     * with the id is removed and the cursor pulled back into the list.
     */
    method DeleteItem(id: string)
      requires Valid()
      modifies this, service
      ensures Valid()
      ensures service.docs == AfterDelete(old(service.docs), id)
      ensures var i := FindIndex(old(items), id);
        if i == -1 then
          items == old(items) && selectedIndex == old(selectedIndex)
        else
          items == old(items)[..i] + old(items)[i + 1..]
          && selectedIndex == ClampSelection(old(selectedIndex), |items|)
      ensures forall j | 0 <= j < |items| :: items[j] in old(items)
      ensures old(selectedIndex) < |old(items)| ==> selectedIndex < |items|
    {
      service.DeleteItem(id);
      var index := FindIndex(items, id);
      if index != -1 {
        items := items[..index] + items[index + 1..];
        selectedIndex := ClampSelection(selectedIndex, |items|);
      }
    }

    /** `reorderItems`: the list becomes the given one and the store takes its order. */
    method ReorderItems(newItems: seq<ClipboardItem>, now: int)
      requires Valid()
      modifies this, service
      ensures Valid()
      ensures items == newItems && selectedIndex == old(selectedIndex)
      ensures service.docs == Reordered(old(service.docs), newItems, now)
    {
      items := newItems;
      service.UpdateItemsOrder(newItems, now);
    }

    /** `selectNext`: moves the cursor down by one, staying within the list. */
    method SelectNext()
      requires Valid()
      modifies this`selectedIndex
      ensures Valid()
      ensures selectedIndex == NextSelection(old(selectedIndex), |items|)
    {
      if |items| == 0 {
        return;
      }
      if selectedIndex == -1 {
        selectedIndex := 0;
      } else if selectedIndex < |items| - 1 {
        selectedIndex := selectedIndex + 1;
      }
    }

    /** `selectPrevious`: moves the cursor up by one, staying within the list. */
    method SelectPrevious()
      requires Valid()
      modifies this`selectedIndex
      ensures Valid()
      ensures selectedIndex == PreviousSelection(old(selectedIndex), |items|)
    {
      if |items| == 0 {
        return;
      }
      if selectedIndex > 0 {
        selectedIndex := selectedIndex - 1;
      } else if selectedIndex == -1 {
        selectedIndex := 0;
      }
    }

    /** `selectIndex`: moves the cursor to a position of the list; ignores any other. */
    method SelectIndex(index: int)
      requires Valid()
      modifies this`selectedIndex
      ensures Valid()
      ensures 0 <= index < |items| ==> selectedIndex == index
      ensures !(0 <= index < |items|) ==> selectedIndex == old(selectedIndex)
    {
      if 0 <= index < |items| {
        selectedIndex := index;
      }
    }

    /** `clearSelection`: no item is selected. */
    method ClearSelection()
      requires Valid()
      modifies this`selectedIndex
      ensures Valid() && selectedIndex == -1
    {
      selectedIndex := -1;
    }
  }
}
